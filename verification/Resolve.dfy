/** Bulk resolve: many geoids looked up in one unordered query, answered in the
    order they were first asked for.
  */
module Resolve {
  import opened Options
  import opened Identifiers
  import opened Interleaving
  import opened Registry
  import opened RegistryLaws

  /** A row of the read query. */
  datatype Place = Place(geoid: Uuid, row: PlaceRow)

  datatype Response = Resolved(features: seq<Place>, notFound: seq<Uuid>) | LimitExceeded(count: nat, limit: nat)

  /** `get_by_geoid`: the place joined with its collection. */
  function GetByGeoid(env: Deployment, t: Tables, g: Uuid): Option<Place> {
    if g in t.place && t.place[g].collection in env.collections then Some(Place(g, t.place[g])) else None
  }

  /** `get_by_geoids`: every existing row among the geoids once, in any order. */
  ghost predicate IsQueryAnswer(env: Deployment, t: Tables, geoids: seq<Uuid>, rows: seq<Place>) {
    && (forall p :: p in rows ==> p.geoid in geoids && GetByGeoid(env, t, p.geoid) == Some(p))
    && (forall g :: g in geoids && GetByGeoid(env, t, g).Some? ==> GetByGeoid(env, t, g).value in rows)
    && (forall i, j :: 0 <= i < j < |rows| ==> rows[i].geoid != rows[j].geoid)
  }

  // ---- What the single resolver finds

  /** On consistent tables the resolver finds exactly the places, each as stored. */
  lemma FindsEveryPlace(env: Deployment, t: Tables, g: Uuid)
    requires Consistent(env, t)
    ensures GetByGeoid(env, t, g).Some? <==> g in t.place
    ensures GetByGeoid(env, t, g).Some? ==> GetByGeoid(env, t, g) == Some(Place(g, t.place[g]))
  {
    if g in t.place {
      LoggedOnce(env, t, g);
      RowsBelongTogether(env, t, g);
    }
  }

  /** An accepted mint's geoid resolves, to a place with the submitted geometry's
      hash, and to the submitted request itself when the mint was new. */
  lemma AcceptedIsFound(env: Deployment, t: Tables, r: Request)
    requires Consistent(env, t) && !Judge(env, t, r).Raised?
    ensures var (o, u) := Statement(env, t, r);
            && GetByGeoid(env, u, o.geoid).Some?
            && GeomHash(env, GetByGeoid(env, u, o.geoid).value.row.geometry) == GeomHash(env, r.geometry)
            && (o.Created? ==>
                  GetByGeoid(env, u, o.geoid) == Some(Place(o.geoid, PlaceRow(r.collection, r.geometry, r.externalId, r.createdBy))))
  {
    AcceptedResolves(env, t, r);
    StatementKeepsConsistent(env, t, r);
    StoresTheRequest(env, t, r);
    var (o, u) := Statement(env, t, r);
    FindsEveryPlace(env, u, o.geoid);
  }

  /** In every interleaving, a geoid delivered to a client resolves in every later
      world, to the row committed for it. */
  lemma DeliveredIsFound(env: Deployment, w: World, steps: seq<Step>, a: Answered, more: seq<Step>, v: World)
    requires Reachable(env, w, steps) && Leads(env, w, more, v)
    requires a in w.delivered && a.answer.Accepted?
    ensures var g := a.answer.geoid;
            && g in w.committed.place && GetByGeoid(env, v.committed, g) == Some(Place(g, w.committed.place[g]))
            && GeomHash(env, w.committed.place[g].geometry) == GeomHash(env, a.request.geometry)
  {
    DeliveredResolves(env, w, steps, a, more, v);
    CommittedIsConsistent(env, w, steps);
    InitInv(env);
    RunKeepsInv(env, INIT, steps, w);
    RunKeepsInv(env, w, more, v);
    FindsEveryPlace(env, v.committed, a.answer.geoid);
  }

  // ---- The handler

  /** `list(dict.fromkeys(ids))` */
  function FromKeys(ids: seq<Uuid>): seq<Uuid> {
    if ids == [] then []
    else
      var before := FromKeys(ids[..|ids| - 1]);
      if ids[|ids| - 1] in before then before else before + [ids[|ids| - 1]]
  }

  /** `{row["geoid"]: row for row in rows}` */
  function ByGeoid(rows: seq<Place>): map<Uuid, Place> {
    if rows == [] then map[] else ByGeoid(rows[..|rows| - 1])[rows[|rows| - 1].geoid := rows[|rows| - 1]]
  }

  function Select(s: seq<Uuid>, keep: Uuid -> bool): (r: seq<Uuid>)
    ensures forall g :: g in r <==> g in s && keep(g)
  {
    if s == [] then []
    else
      var n := |s| - 1;
      assert s == s[..n] + [s[n]];
      Select(s[..n], keep) + if keep(s[n]) then [s[n]] else []
  }

  function Features(requested: seq<Uuid>, rows: map<Uuid, Place>): seq<Place> {
    var hits := Select(requested, g => g in rows);
    seq(|hits|, i requires 0 <= i < |hits| => assert hits[i] in hits; rows[hits[i]])
  }

  function NotFound(requested: seq<Uuid>, rows: map<Uuid, Place>): seq<Uuid> {
    Select(requested, g => g !in rows)
  }

  /** `resolve_geoids`, given what the query answered. */
  function ResolveGeoids(ids: seq<Uuid>, limit: nat, rows: seq<Place>): (r: Response)
    ensures r.LimitExceeded? <==> |ids| > limit
  {
    if |ids| > limit then LimitExceeded(|ids|, limit)
    else Resolved(Features(FromKeys(ids), ByGeoid(rows)), NotFound(FromKeys(ids), ByGeoid(rows)))
  }

  // ---- Order of first asking

  /** Where an id is first asked for. */
  function FirstIndex(ids: seq<Uuid>, g: Uuid): (k: nat)
    requires g in ids
    ensures k < |ids| && ids[k] == g && forall i :: 0 <= i < k ==> ids[i] != g
  {
    if ids[0] == g then 0 else 1 + FirstIndex(ids[1..], g)
  }

  /** The ids all occur in the request, each once, first asked for first. */
  ghost predicate InFirstOrder(ids: seq<Uuid>, some: seq<Uuid>) {
    && (forall i :: 0 <= i < |some| ==> some[i] in ids)
    && (forall i, j :: 0 <= i < j < |some| ==> FirstIndex(ids, some[i]) < FirstIndex(ids, some[j]))
  }

  lemma FirstIndexOfPrefix(ids: seq<Uuid>, more: seq<Uuid>, g: Uuid)
    requires g in ids
    ensures FirstIndex(ids + more, g) == FirstIndex(ids, g)
  {
    var j, k := FirstIndex(ids + more, g), FirstIndex(ids, g);
    assert (ids + more)[k] == g;
    assert j <= k;
    assert ids[j] == (ids + more)[j];
  }

  lemma {:induction false} FromKeysFacts(ids: seq<Uuid>)
    ensures InFirstOrder(ids, FromKeys(ids))
    ensures forall g :: g in ids ==> g in FromKeys(ids)
  {
    if ids != [] {
      var n := |ids| - 1;
      var before := FromKeys(ids[..n]);
      FromKeysFacts(ids[..n]);
      assert ids == ids[..n] + [ids[n]];
      forall i | 0 <= i < |before| ensures before[i] in ids && FirstIndex(ids, before[i]) == FirstIndex(ids[..n], before[i]) {
        FirstIndexOfPrefix(ids[..n], [ids[n]], before[i]);
      }
      if ids[n] !in before {
        assert FirstIndex(ids, ids[n]) == n;
      }
    }
  }

  lemma {:induction false} ByGeoidFacts(rows: seq<Place>, g: Uuid)
    ensures g in ByGeoid(rows) <==> exists p :: p in rows && p.geoid == g
    ensures g in ByGeoid(rows) ==> ByGeoid(rows)[g] in rows && ByGeoid(rows)[g].geoid == g
  {
    if rows != [] {
      var n := |rows| - 1;
      ByGeoidFacts(rows[..n], g);
      assert rows == rows[..n] + [rows[n]];
    }
  }

  /** The map holds, for each geoid asked for, what the single resolver finds. */
  lemma RowMap(env: Deployment, t: Tables, requested: seq<Uuid>, rows: seq<Place>, g: Uuid)
    requires IsQueryAnswer(env, t, requested, rows)
    ensures g in ByGeoid(rows) <==> g in requested && GetByGeoid(env, t, g).Some?
    ensures g in ByGeoid(rows) ==> GetByGeoid(env, t, g) == Some(ByGeoid(rows)[g]) && ByGeoid(rows)[g].geoid == g
  {
    ByGeoidFacts(rows, g);
    if g in requested && GetByGeoid(env, t, g).Some? {
      assert GetByGeoid(env, t, g).value in rows;
    }
  }

  function Geoids(places: seq<Place>): (r: seq<Uuid>)
    ensures |r| == |places|
  {
    seq(|places|, i requires 0 <= i < |places| => places[i].geoid)
  }

  lemma LastInOrder(ids: seq<Uuid>, some: seq<Uuid>, before: seq<Uuid>, g: Uuid)
    requires InFirstOrder(ids, some) && InFirstOrder(ids, before + [g])
    requires forall h :: h in some ==> h in before
    ensures InFirstOrder(ids, some + [g])
  {
    assert (before + [g])[|before|] == g;
    forall i | 0 <= i < |some| ensures FirstIndex(ids, some[i]) < FirstIndex(ids, g) {
      assert some[i] in some;
      var j :| 0 <= j < |before| && before[j] == some[i];
      assert (before + [g])[j] == some[i];
    }
  }

  /** Selecting from a list keeps its order. */
  lemma {:induction false} SelectKeepsOrder(ids: seq<Uuid>, requested: seq<Uuid>, keep: Uuid -> bool)
    requires InFirstOrder(ids, requested)
    ensures InFirstOrder(ids, Select(requested, keep))
    decreases |requested|
  {
    if requested != [] {
      var n := |requested| - 1;
      SelectKeepsOrder(ids, requested[..n], keep);
      if keep(requested[n]) {
        assert requested == requested[..n] + [requested[n]];
        LastInOrder(ids, Select(requested[..n], keep), requested[..n], requested[n]);
      }
    }
  }

  lemma FeatureGeoids(requested: seq<Uuid>, rows: map<Uuid, Place>)
    requires forall g :: g in rows ==> rows[g].geoid == g
    ensures Geoids(Features(requested, rows)) == Select(requested, g => g in rows)
    ensures forall p :: p in Features(requested, rows) ==> p.geoid in rows && rows[p.geoid] == p
  {
    var hits := Select(requested, g => g in rows);
    forall i | 0 <= i < |hits| ensures Features(requested, rows)[i].geoid == hits[i] {
      assert hits[i] in hits;
    }
    forall p | p in Features(requested, rows) ensures p.geoid in rows && rows[p.geoid] == p {
      var i :| 0 <= i < |hits| && Features(requested, rows)[i] == p;
      assert hits[i] in hits;
    }
  }

  /** Whatever the order of the rows: the features are exactly what the single
      resolver returns for the geoids it finds, the rest are reported not found,
      and both lists follow the order in which the geoids were first asked for. */
  lemma BulkResolveIsSingle(env: Deployment, t: Tables, ids: seq<Uuid>, limit: nat, rows: seq<Place>)
    requires IsQueryAnswer(env, t, FromKeys(ids), rows) && |ids| <= limit
    ensures var r := ResolveGeoids(ids, limit, rows);
            && InFirstOrder(ids, Geoids(r.features)) && InFirstOrder(ids, r.notFound)
            && (forall p :: p in r.features ==> GetByGeoid(env, t, p.geoid) == Some(p))
            && (forall g :: g in Geoids(r.features) <==> g in ids && GetByGeoid(env, t, g).Some?)
            && (forall g :: g in r.notFound <==> g in ids && GetByGeoid(env, t, g).None?)
  {
    var requested, found := FromKeys(ids), ByGeoid(rows);
    FromKeysFacts(ids);
    forall g ensures g in found <==> g in requested && GetByGeoid(env, t, g).Some?
             ensures g in found ==> GetByGeoid(env, t, g) == Some(found[g]) && found[g].geoid == g
    {
      RowMap(env, t, requested, rows, g);
    }
    FeatureGeoids(requested, found);
    SelectKeepsOrder(ids, requested, g => g in found);
    SelectKeepsOrder(ids, requested, g => g !in found);
  }

  /** The answer does not depend on the order of the rows. */
  lemma RowOrderIsIrrelevant(env: Deployment, t: Tables, ids: seq<Uuid>, limit: nat, rows: seq<Place>,
        other: seq<Place>)
    requires IsQueryAnswer(env, t, FromKeys(ids), rows) && IsQueryAnswer(env, t, FromKeys(ids), other)
    ensures ResolveGeoids(ids, limit, rows) == ResolveGeoids(ids, limit, other)
  {
    hide IsQueryAnswer, GetByGeoid;
    var a, b := ByGeoid(rows), ByGeoid(other);
    forall g ensures (g in a <==> g in b) && (g in a ==> a[g] == b[g]) {
      RowMap(env, t, FromKeys(ids), rows, g);
      RowMap(env, t, FromKeys(ids), other, g);
    }
    assert a == b;
  }
}
