/** What a grant request does, told from the rows alone: who may manage, which reply
    is given when, and what each row is afterwards.
  */
module GrantLaws {
  import opened Identifiers
  import opened Options
  import opened Grants

  /** The row grants this person something in this collection. */
  predicate GrantsTo(g: Grant, c: CollectionId, email: string) {
    g.collection == c && g.kind.User? && g.email == email
  }

  /** The caller is known by a verified email, the row is theirs, and no other
      subject is recorded on it. */
  predicate Recognised(s: Setting, rows: seq<Grant>, p: Principal, c: CollectionId, g: Grant) {
    && !p.anonymous && !p.admin && p.emailVerified && p.email != ""
    && g in rows && GrantsTo(g, c, s.norm(p.email))
    && (g.subject.None? || g.subject == Some(p.subject))
  }

  ghost predicate MayManage(s: Setting, rows: seq<Grant>, p: Principal, c: CollectionId) {
    && !p.anonymous && c in s.collections
    && (p.admin || exists g :: Recognised(s, rows, p, c, g) && g.role.Owner?)
  }

  /** A grant is honoured exactly when it recognises the caller. */
  lemma HonouredExactly(s: Setting, rows: seq<Grant>, p: Principal, c: CollectionId, g: Grant)
    requires OnePerKey(rows)
    ensures LoadCallerGrant(s, rows, p, c).0 == Some(g) <==> Recognised(s, rows, p, c, g)
  {
    var e := s.norm(p.email);
    FindFacts(rows, c, e);
    if g in rows && GrantsTo(g, c, e) {
      assert Find(rows, c, e).Some?;
      MatchIsUnique(rows, c, e, g, Find(rows, c, e).value);
    }
  }

  lemma ManagesExactly(s: Setting, rows: seq<Grant>, p: Principal, c: CollectionId)
    requires OnePerKey(rows)
    ensures Manageable(s, rows, p, c).0.None? <==> MayManage(s, rows, p, c)
  {
    var loaded := LoadCallerGrant(s, rows, p, c).0;
    if loaded.Some? {
      HonouredExactly(s, rows, p, c, loaded.value);
    }
    forall g | Recognised(s, rows, p, c, g) ensures loaded == Some(g) {
      HonouredExactly(s, rows, p, c, g);
    }
  }

  // ---- Which reply, exactly when

  /** The person owns the collection and nobody else does. */
  ghost predicate SoleOwner(rows: seq<Grant>, c: CollectionId, email: string) {
    && (exists g :: g in rows && GrantsTo(g, c, email) && g.role.Owner?)
    && (forall h :: h in rows && h.collection == c && h.role.Owner? ==> GrantsTo(h, c, email))
  }

  lemma SoleOwnerExactly(rows: seq<Grant>, c: CollectionId, e: string)
    requires OnePerKey(rows)
    ensures IsLastOwner(rows, c, e) <==> SoleOwner(rows, c, e)
  {
    GuardIsExact(rows, c, e);
    forall g ensures g in Without(rows, c, e) <==> g in rows && !GrantsTo(g, c, e) {
      WithoutMembers(rows, c, e, g);
    }
  }

  /** The caller's own row may have had its subject recorded; nothing else changes. */
  predicate Kept(s: Setting, p: Principal, c: CollectionId, g: Grant, h: Grant) {
    h == g || (g.subject.None? && GrantsTo(g, c, s.norm(p.email)) && h == g.(subject := Some(p.subject)))
  }

  /** Row by row, nothing but the caller's own subject may have changed. */
  predicate AllKept(s: Setting, p: Principal, c: CollectionId, rows: seq<Grant>, touched: seq<Grant>) {
    |touched| == |rows| && forall i :: 0 <= i < |rows| ==> Kept(s, p, c, rows[i], touched[i])
  }

  lemma TouchedKept(s: Setting, rows: seq<Grant>, p: Principal, c: CollectionId)
    ensures AllKept(s, p, c, rows, LoadCallerGrant(s, rows, p, c).1)
  {
  }

  /** Same keys and roles, row by row. */
  ghost predicate SameRoles(a: seq<Grant>, b: seq<Grant>) {
    |a| == |b| && forall i :: 0 <= i < |a| ==> SameKey(a[i], b[i]) && a[i].role == b[i].role
  }

  lemma SoleOwnerBySameRoles(a: seq<Grant>, b: seq<Grant>, c: CollectionId, e: string)
    requires SameRoles(a, b)
    ensures SoleOwner(a, c, e) ==> SoleOwner(b, c, e)
    ensures (exists g :: g in a && GrantsTo(g, c, e)) ==> exists g :: g in b && GrantsTo(g, c, e)
  {
    if g :| g in a && GrantsTo(g, c, e) {
      var i :| 0 <= i < |a| && a[i] == g;
      assert b[i] in b && GrantsTo(b[i], c, e);
    }
    if SoleOwner(a, c, e) {
      var g :| g in a && GrantsTo(g, c, e) && g.role.Owner?;
      var i :| 0 <= i < |a| && a[i] == g;
      assert b[i] in b && GrantsTo(b[i], c, e) && b[i].role.Owner?;
      forall h | h in b && h.collection == c && h.role.Owner? ensures GrantsTo(h, c, e) {
        var j :| 0 <= j < |b| && b[j] == h;
        assert a[j] in a;
      }
    }
  }

  lemma TouchedSoleOwner(s: Setting, rows: seq<Grant>, p: Principal, c: CollectionId, e: string)
    ensures SoleOwner(LoadCallerGrant(s, rows, p, c).1, c, e) <==> SoleOwner(rows, c, e)
    ensures (exists g :: g in LoadCallerGrant(s, rows, p, c).1 && GrantsTo(g, c, e)) <==>
            exists g :: g in rows && GrantsTo(g, c, e)
  {
    var touched := LoadCallerGrant(s, rows, p, c).1;
    TouchedKept(s, rows, p, c);
    SoleOwnerBySameRoles(rows, touched, c, e);
    SoleOwnerBySameRoles(touched, rows, c, e);
  }

  /** Each reply of a grant request, exactly when: 401, 404 and 403 in this order,
      owners made by administrators only, the guard for the sole owner only. */
  lemma GiveReplies(s: Setting, rows: seq<Grant>, p: Principal, c: CollectionId, email: string, role: Role)
    requires OnePerKey(rows)
    ensures var reply := Step(s, rows, Give(p, c, email, role)).0;
            && (reply == AuthenticationRequired <==> p.anonymous)
            && (reply == CollectionNotFound <==> !p.anonymous && c !in s.collections)
            && (reply == Forbidden <==> !p.anonymous && c in s.collections && !MayManage(s, rows, p, c))
            && (reply == OwnerGrantForbidden <==> MayManage(s, rows, p, c) && role.Owner? && !p.admin)
            && (reply == LastOwner <==> MayManage(s, rows, p, c) && !role.Owner? && SoleOwner(rows, c, s.norm(email)))
            && (reply.Granted? <==>
                  && MayManage(s, rows, p, c) && (role.Owner? ==> p.admin)
                  && (!role.Owner? ==> !SoleOwner(rows, c, s.norm(email))))
            && (reply.Granted? ==> reply.role == role)
  {
    ManagesExactly(s, rows, p, c);
    var touched := LoadCallerGrant(s, rows, p, c).1;
    LoadKeeps(s, rows, p, c);
    SoleOwnerExactly(touched, c, s.norm(email));
    TouchedSoleOwner(s, rows, p, c, s.norm(email));
    hide MayManage, SoleOwner, IsLastOwner, LoadCallerGrant, OnePerKey, Upsert;
  }

  lemma TakeReplies(s: Setting, rows: seq<Grant>, p: Principal, c: CollectionId, email: string)
    requires OnePerKey(rows)
    ensures var reply := Step(s, rows, Take(p, c, email)).0;
            && (reply == AuthenticationRequired <==> p.anonymous)
            && (reply == CollectionNotFound <==> !p.anonymous && c !in s.collections)
            && (reply == Forbidden <==> !p.anonymous && c in s.collections && !MayManage(s, rows, p, c))
            && (reply == GrantNotFound <==>
                  MayManage(s, rows, p, c) && forall g :: g in rows ==> !GrantsTo(g, c, s.norm(email)))
            && (reply == LastOwner <==> MayManage(s, rows, p, c) && SoleOwner(rows, c, s.norm(email)))
            && (reply == Revoked <==>
                  && MayManage(s, rows, p, c) && (exists g :: g in rows && GrantsTo(g, c, s.norm(email)))
                  && !SoleOwner(rows, c, s.norm(email)))
  {
    ManagesExactly(s, rows, p, c);
    var touched := LoadCallerGrant(s, rows, p, c).1;
    LoadKeeps(s, rows, p, c);
    SoleOwnerExactly(touched, c, s.norm(email));
    TouchedSoleOwner(s, rows, p, c, s.norm(email));
    FindFacts(touched, c, s.norm(email));
    FoundExactly(touched, c, s.norm(email));
    hide MayManage, LoadCallerGrant, OnePerKey, Without;
  }

  lemma FoundExactly(rows: seq<Grant>, c: CollectionId, e: string)
    ensures Find(rows, c, e).Some? <==> exists g :: g in rows && GrantsTo(g, c, e)
  {
    FindFacts(rows, c, e);
    if g :| g in rows && GrantsTo(g, c, e) {
      var i :| 0 <= i < |rows| && rows[i] == g;
      assert Matches(rows[i], c, e);
    }
  }

  /** A grant on which another subject is recorded gives no authority: its holder,
      unless an administrator, can neither grant nor revoke. */
  lemma OtherSubjectIsForbidden(s: Setting, rows: seq<Grant>, p: Principal, c: CollectionId, email: string, role: Role, g: Grant)
    requires OnePerKey(rows) && !p.anonymous && !p.admin && c in s.collections
    requires g in rows && GrantsTo(g, c, s.norm(p.email)) && g.subject.Some? && g.subject != Some(p.subject)
    ensures Step(s, rows, Give(p, c, email, role)) == (Forbidden, rows)
    ensures Step(s, rows, Take(p, c, email)) == (Forbidden, rows)
  {
    GiveReplies(s, rows, p, c, email, role);
    TakeReplies(s, rows, p, c, email);
    forall h | Recognised(s, rows, p, c, h) ensures h == g {
      MatchIsUnique(rows, c, s.norm(p.email), g, h);
    }
  }

  // ---- What the rows are afterwards

  /** A refusal leaves the rows as they were, the caller's own subject included. */
  lemma RefusalChangesNothing(s: Setting, rows: seq<Grant>, r: Request)
    ensures var (reply, u) := Step(s, rows, r);
            !reply.Granted? && !reply.Revoked? && !reply.Used? ==> u == rows
  {
  }

  /** After a revocation the person has no grant left; everyone else keeps theirs,
      with its role. */
  lemma RevokedExactly(s: Setting, rows: seq<Grant>, p: Principal, c: CollectionId, email: string)
    requires Step(s, rows, Take(p, c, email)).0 == Revoked
    ensures var u := Step(s, rows, Take(p, c, email)).1; var e := s.norm(email);
            && (forall h :: h in u ==> !GrantsTo(h, c, e) && exists g :: g in rows && Kept(s, p, c, g, h))
            && (forall g :: g in rows && !GrantsTo(g, c, e) ==> exists h :: h in u && Kept(s, p, c, g, h))
  {
    var u := Step(s, rows, Take(p, c, email)).1;
    var e := s.norm(email);
    var touched := LoadCallerGrant(s, rows, p, c).1;
    TouchedKept(s, rows, p, c);
    forall h ensures h in u <==> h in touched && !GrantsTo(h, c, e) {
      WithoutMembers(touched, c, e, h);
    }
    hide LoadCallerGrant, Without;
    forall h | h in u ensures !GrantsTo(h, c, e) && exists g :: g in rows && Kept(s, p, c, g, h) {
      var i :| 0 <= i < |touched| && touched[i] == h;
      assert rows[i] in rows && Kept(s, p, c, rows[i], touched[i]);
    }
    forall g | g in rows && !GrantsTo(g, c, e) ensures exists h :: h in u && Kept(s, p, c, g, h) {
      var i :| 0 <= i < |rows| && rows[i] == g;
      assert touched[i] in touched && Kept(s, p, c, rows[i], touched[i]);
    }
  }

  /** The row a grant request leaves for the person: the requested role, who granted
      it, and the subject as it was, null for a new row. */
  predicate GivenRow(s: Setting, rows: seq<Grant>, p: Principal, c: CollectionId, e: string, role: Role, h: Grant) {
    && GrantsTo(h, c, e) && h.role == role
    && h.grantedBy == Some(if p.email != "" then p.email else p.subject)
    && forall g :: g in rows && GrantsTo(g, c, e) && g.subject.Some? ==> h.subject == g.subject
  }

  /** After a grant the person has exactly the requested role; everyone else keeps
      theirs. */
  lemma GrantedExactly(s: Setting, rows: seq<Grant>, p: Principal, c: CollectionId, email: string, role: Role)
    requires OnePerKey(rows) && Step(s, rows, Give(p, c, email, role)).0.Granted?
    ensures var u := Step(s, rows, Give(p, c, email, role)).1; var e := s.norm(email);
            && (exists h :: h in u && GrantsTo(h, c, e))
            && (forall h :: h in u && GrantsTo(h, c, e) ==> GivenRow(s, rows, p, c, e, role, h))
            && (forall h :: h in u && !GrantsTo(h, c, e) ==> exists g :: g in rows && Kept(s, p, c, g, h))
            && (forall g :: g in rows && !GrantsTo(g, c, e) ==> exists h :: h in u && Kept(s, p, c, g, h))
            && ((forall g :: g in rows ==> !GrantsTo(g, c, e)) ==> forall h :: h in u && GrantsTo(h, c, e) ==> h.subject.None?)
  {
    var u := Step(s, rows, Give(p, c, email, role)).1;
    var e := s.norm(email);
    var touched := LoadCallerGrant(s, rows, p, c).1;
    TouchedKept(s, rows, p, c);
    FoundExactly(touched, c, e);
    TouchedSoleOwner(s, rows, p, c, e);
    assert u == Upsert(touched, c, e, role, Granter(p));
    hide LoadCallerGrant, Step;
    if Find(touched, c, e).Some? {
      UpdatedRows(s, rows, p, c, e, role, touched, u);
    } else {
      AddedRowKeepsOthers(s, rows, p, c, e, role, touched, u);
    }
  }

  lemma UpdatedRows(s: Setting, rows: seq<Grant>, p: Principal, c: CollectionId, e: string, role: Role, touched: seq<Grant>,
        u: seq<Grant>)
    requires OnePerKey(rows) && AllKept(s, p, c, rows, touched)
    requires u == WithRole(touched, c, e, role, Granter(p)) && exists g :: g in touched && GrantsTo(g, c, e)
    ensures exists h :: h in u && GrantsTo(h, c, e)
    ensures forall h :: h in u && GrantsTo(h, c, e) ==> GivenRow(s, rows, p, c, e, role, h)
    ensures forall h :: h in u && !GrantsTo(h, c, e) ==> exists g :: g in rows && Kept(s, p, c, g, h)
    ensures forall g :: g in rows && !GrantsTo(g, c, e) ==> exists h :: h in u && Kept(s, p, c, g, h)
  {
    hide GivenRow, OnePerKey;
    var g0 :| g0 in touched && GrantsTo(g0, c, e);
    var k :| 0 <= k < |touched| && touched[k] == g0;
    assert u[k] in u && GrantsTo(u[k], c, e);
    forall h | h in u && GrantsTo(h, c, e) ensures GivenRow(s, rows, p, c, e, role, h) {
      var i :| 0 <= i < |u| && u[i] == h;
      UpdatedRow(s, rows, p, c, e, role, touched, i, h);
    }
    forall h | h in u && !GrantsTo(h, c, e) ensures exists g :: g in rows && Kept(s, p, c, g, h) {
      var i :| 0 <= i < |u| && u[i] == h;
      assert rows[i] in rows && Kept(s, p, c, rows[i], touched[i]);
    }
    forall g | g in rows && !GrantsTo(g, c, e) ensures exists h :: h in u && Kept(s, p, c, g, h) {
      var i :| 0 <= i < |rows| && rows[i] == g;
      assert u[i] in u && Kept(s, p, c, rows[i], touched[i]);
    }
  }

  lemma UpdatedRow(s: Setting, rows: seq<Grant>, p: Principal, c: CollectionId, e: string, role: Role, touched: seq<Grant>,
        i: nat, h: Grant)
    requires OnePerKey(rows) && AllKept(s, p, c, rows, touched) && i < |rows|
    requires h == touched[i].(role := role, grantedBy := Granter(p)) && GrantsTo(h, c, e)
    ensures GivenRow(s, rows, p, c, e, role, h)
  {
    forall g | g in rows && GrantsTo(g, c, e) && g.subject.Some? ensures h.subject == g.subject {
      assert Kept(s, p, c, rows[i], touched[i]);
      MatchIsUnique(rows, c, e, g, rows[i]);
    }
  }

  lemma AddedRowKeepsOthers(s: Setting, rows: seq<Grant>, p: Principal, c: CollectionId, e: string, role: Role,
        touched: seq<Grant>, u: seq<Grant>)
    requires AllKept(s, p, c, rows, touched)
    requires u == touched + [Grant(c, User, e, role, None, Granter(p))]
    requires forall g :: g in touched ==> !GrantsTo(g, c, e)
    requires forall g :: g in rows ==> !GrantsTo(g, c, e)
    ensures exists h :: h in u && GrantsTo(h, c, e)
    ensures forall h :: h in u && GrantsTo(h, c, e) ==> GivenRow(s, rows, p, c, e, role, h) && h.subject.None?
    ensures forall h :: h in u && !GrantsTo(h, c, e) ==> exists g :: g in rows && Kept(s, p, c, g, h)
    ensures forall g :: g in rows && !GrantsTo(g, c, e) ==> exists h :: h in u && Kept(s, p, c, g, h)
  {
    assert u[|touched|] in u && GrantsTo(u[|touched|], c, e);
    forall h | h in u && !GrantsTo(h, c, e) ensures exists g :: g in rows && Kept(s, p, c, g, h) {
      var i :| 0 <= i < |u| && u[i] == h;
      assert rows[i] in rows && Kept(s, p, c, rows[i], touched[i]);
    }
    forall g | g in rows ensures exists h :: h in u && Kept(s, p, c, g, h) {
      var i :| 0 <= i < |rows| && rows[i] == g;
      assert u[i] == touched[i] && u[i] in u && Kept(s, p, c, rows[i], touched[i]);
    }
  }

  /** A request that succeeds records the subject of a caller whose own grant was
      honoured and had none: on every such row that is left. */
  lemma SubjectIsRecorded(s: Setting, rows: seq<Grant>, r: Request, own: Grant, h: Grant)
    requires OnePerKey(rows) && Recognised(s, rows, r.caller, r.collection, own)
    requires own.subject.None? && r.caller.subject != ""
    requires Step(s, rows, r).0.Granted? || Step(s, rows, r).0.Revoked? || Step(s, rows, r).0.Used?
    requires h in Step(s, rows, r).1 && GrantsTo(h, r.collection, s.norm(r.caller.email))
    ensures h.subject == Some(r.caller.subject)
  {
    var (p, c) := (r.caller, r.collection);
    var (e, touched) := (s.norm(p.email), LoadCallerGrant(s, rows, p, c).1);
    HonouredExactly(s, rows, p, c, own);
    assert touched == Backfill(rows, c, e, p.subject);
    forall i | 0 <= i < |touched| && GrantsTo(touched[i], c, e) ensures touched[i].subject == Some(p.subject) {
      assert rows[i] in rows;
      MatchIsUnique(rows, c, e, own, rows[i]);
    }
    var k :| 0 <= k < |rows| && rows[k] == own;
    assert touched[k] in touched && SameKey(touched[k], h);
    RowComesFrom(s, rows, r, touched, h);
  }

  /** A row left for the caller is one of the touched rows, but for role and granter. */
  lemma RowComesFrom(s: Setting, rows: seq<Grant>, r: Request, touched: seq<Grant>, h: Grant)
    requires touched == LoadCallerGrant(s, rows, r.caller, r.collection).1
    requires Step(s, rows, r).0.Granted? || Step(s, rows, r).0.Revoked? || Step(s, rows, r).0.Used?
    requires h in Step(s, rows, r).1 && exists g :: g in touched && SameKey(g, h)
    ensures exists i :: 0 <= i < |touched| && SameKey(touched[i], h) && touched[i].subject == h.subject
  {
    var u := Step(s, rows, r).1;
    if r.Take? {
      WithoutMembers(touched, r.collection, s.norm(r.email), h);
      var i :| 0 <= i < |touched| && touched[i] == h;
      assert SameKey(touched[i], h);
    } else {
      var i :| 0 <= i < |u| && u[i] == h;
      if r.Give? {
        FoundExactly(touched, r.collection, s.norm(r.email));
        var g :| g in touched && SameKey(g, h);
        assert GrantsTo(h, r.collection, s.norm(r.email)) ==> GrantsTo(g, r.collection, s.norm(r.email));
      }
      assert SameKey(touched[i], h) && touched[i].subject == h.subject;
    }
  }

  // ---- Two requests at once

  /** The guard counts owners without locking them, so two revocations may both be
      judged on the same rows before either deletes. */
  function BothRevoked(s: Setting, rows: seq<Grant>, c: CollectionId, one: string, other: string): seq<Grant> {
    Without(Without(rows, c, s.norm(one)), c, s.norm(other))
  }

  /** Then an owner is left exactly when there was a third: the guard, which keeps
      requests taken one at a time from orphaning a collection, does not see that
      the two persons are its only owners. */
  lemma RacingRevocations(s: Setting, rows: seq<Grant>, c: CollectionId, p: Principal, one: string, q: Principal, other: string)
    requires OnePerKey(rows) && HasOwner(rows, c)
    requires Step(s, rows, Take(p, c, one)).0 == Revoked && Step(s, rows, Take(q, c, other)).0 == Revoked
    ensures HasOwner(BothRevoked(s, rows, c, one, other), c) <==>
              exists g :: g in rows && g.collection == c && g.role.Owner?
                          && !GrantsTo(g, c, s.norm(one)) && !GrantsTo(g, c, s.norm(other))
    ensures HasOwner(Without(rows, c, s.norm(one)), c) && HasOwner(Without(rows, c, s.norm(other)), c)
  {
    TakeReplies(s, rows, p, c, one);
    TakeReplies(s, rows, q, c, other);
    SoleOwnerExactly(rows, c, s.norm(one));
    SoleOwnerExactly(rows, c, s.norm(other));
    GuardIsExact(rows, c, s.norm(one));
    GuardIsExact(rows, c, s.norm(other));
    hide Step, IsLastOwner, MayManage, OnePerKey;
    var left := Without(rows, c, s.norm(one));
    forall g ensures g in BothRevoked(s, rows, c, one, other) <==>
                     g in rows && !GrantsTo(g, c, s.norm(one)) && !GrantsTo(g, c, s.norm(other))
    {
      WithoutMembers(rows, c, s.norm(one), g);
      WithoutMembers(left, c, s.norm(other), g);
    }
  }

  /** One owner of two may revoke the other. */
  lemma OwnerRevokesOwner(s: Setting, rows: seq<Grant>, c: CollectionId, p: Principal, mine: Grant, other: Grant)
    requires OnePerKey(rows) && c in s.collections && Recognised(s, rows, p, c, mine) && mine.role.Owner?
    requires other in rows && other != mine && other.collection == c && other.kind.User? && s.norm(other.email) == other.email
    ensures Step(s, rows, Take(p, c, other.email)).0 == Revoked
  {
    TakeReplies(s, rows, p, c, other.email);
    assert MayManage(s, rows, p, c);
    hide Step;
    if SoleOwner(rows, c, other.email) {
      MatchIsUnique(rows, c, other.email, mine, other);
    }
  }

  /** It happens: two owners, and nobody else, revoke each other at once. */
  lemma TwoOwnersRevokeEachOther(s: Setting, c: CollectionId, p: Principal, q: Principal)
    requires s.norm(p.email) == p.email && s.norm(q.email) == q.email && c in s.collections
    requires p == Principal(false, false, "ann", true, "1") && q == Principal(false, false, "bob", true, "2")
    ensures var rows := [Grant(c, User, "ann", Owner, None, None), Grant(c, User, "bob", Owner, None, None)];
            && Step(s, rows, Take(p, c, "bob")).0 == Revoked && Step(s, rows, Take(q, c, "ann")).0 == Revoked
            && HasOwner(rows, c) && !HasOwner(BothRevoked(s, rows, c, "bob", "ann"), c)
  {
    var ann, bob := Grant(c, User, "ann", Owner, None, None), Grant(c, User, "bob", Owner, None, None);
    var rows := [ann, bob];
    assert rows[0] in rows && rows[1] in rows;
    assert "ann"[0] != "bob"[0];
    OwnerRevokesOwner(s, rows, c, p, ann, bob);
    OwnerRevokesOwner(s, rows, c, q, bob, ann);
    RacingRevocations(s, rows, c, p, "bob", q, "ann");
  }
}
