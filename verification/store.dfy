/** The record store of traefisy as a value: the `routers` table as a
    sequence of rows and the `settings` table as a sequence of rows, with
    the six store operations as pure functions over it. */
module Store {
  import opened Models

  /** The whole database. Row order is the order in which rows were
      inserted; the source never asks for an order, so contracts below
      only speak of "some" matching row where the source uses `.first()`. */
  datatype Db = Db(routers: seq<Router>, settings: seq<Settings>)

  /** A freshly created database: both tables empty. */
  const EmptyDb := Db([], [])

  /** Index of the first row satisfying `matches`, or None: the model of
      `query(...).filter(...).first()`. */
  function FirstIndex(rs: seq<Router>, matches: Router -> bool): (k: Option<nat>)
    ensures k.Some? ==> k.value < |rs| && matches(rs[k.value])
    ensures k.Some? ==> forall j :: 0 <= j < k.value ==> !matches(rs[j])
    ensures k.None? <==> forall j :: 0 <= j < |rs| ==> !matches(rs[j])
  {
    if |rs| == 0 then None
    else if matches(rs[0]) then Some(0)
    else match FirstIndex(rs[1..], matches)
      case None => None
      case Some(k) => Some(k + 1)
  }

  /** `get_routers`: all rows of the routers table. */
  function GetRouters(db: Db): seq<Router>
  {
    db.routers
  }

  /** `is_router_duplicate`: is there a stored router with the given name
      OR the given domain? */
  function IsRouterDuplicate(db: Db, name: string, domain: string): (b: bool)
    ensures b <==> exists i :: 0 <= i < |db.routers| &&
                     (db.routers[i].name == name || db.routers[i].domain == domain)
  {
    FirstIndex(db.routers, (r: Router) => r.name == name || r.domain == domain).Some?
  }

  /** The store after an insert together with the row as it was stored. */
  datatype Added = Added(db: Db, router: Router)

  /** `add_router`: inserts one router row and returns it. `id` stands for
      the uuid the column default generates. */
  function AddRouter(
    db: Db, id: string, name: string, domain: string, serviceName: string,
    serviceUrl: string, entrypoints: string, tls: bool): (res: Added)
    ensures res.router == Router(id, name, domain, serviceName, serviceUrl, entrypoints, tls)
    ensures |res.db.routers| == |db.routers| + 1
    ensures res.db.routers[..|db.routers|] == db.routers
    ensures res.db.routers[|db.routers|] == res.router
    ensures res.db.settings == db.settings
  {
    var r := NewRouter(id, name, domain, serviceName, serviceUrl, entrypoints, Some(tls));
    Added(db.(routers := db.routers + [r]), r)
  }

  /** The rows of `rs` with row `k` deleted. */
  function Without(rs: seq<Router>, k: nat): (rest: seq<Router>)
    requires k < |rs|
    ensures |rest| == |rs| - 1
    ensures forall j :: 0 <= j < k ==> rest[j] == rs[j]
    ensures forall j :: k < j < |rs| ==> rest[j - 1] == rs[j]
  {
    rs[..k] + rs[k + 1..]
  }

  /** Does some row's id match `identifier` under the id matcher? */
  predicate IdHit(rs: seq<Router>, identifier: string, idMatch: (string, string) -> bool)
  {
    exists i :: 0 <= i < |rs| && idMatch(rs[i].id, identifier)
  }

  /** Does some row carry exactly the name `identifier`? */
  predicate NameHit(rs: seq<Router>, identifier: string)
  {
    exists i :: 0 <= i < |rs| && rs[i].name == identifier
  }

  /** The deletion policy of `remove_router`, parametric in how an id is
      matched against the identifier: look up by id first; only when no id
      matches, look up by exact name; delete what was found. */
  function RemoveWith(db: Db, identifier: string, idMatch: (string, string) -> bool): (res: (Db, bool))
    ensures res.1 <==> IdHit(db.routers, identifier, idMatch) || NameHit(db.routers, identifier)
    ensures !res.1 ==> res.0 == db
    ensures res.1 ==> (exists k :: 0 <= k < |db.routers| &&
                        res.0.routers == Without(db.routers, k) &&
                        (if IdHit(db.routers, identifier, idMatch)
                         then idMatch(db.routers[k].id, identifier)
                         else db.routers[k].name == identifier))
    ensures res.0.settings == db.settings
  {
    var byId := FirstIndex(db.routers, (r: Router) => idMatch(r.id, identifier));
    var found := if byId.Some? then byId else FirstIndex(db.routers, (r: Router) => r.name == identifier);
    match found
    case Some(k) => (db.(routers := Without(db.routers, k)), true)
    case None => (db, false)
  }

  /** Literal prefix test: does `id` begin with `identifier`? */
  predicate IsIdPrefix(id: string, identifier: string)
  {
    identifier <= id
  }

  /** `remove_router`: deletes one router whose id begins with
      `identifier`; only if there is none, one whose name equals it.
      Returns whether a row was deleted. */
  function RemoveRouter(db: Db, identifier: string): (res: (Db, bool))
    ensures res.1 <==> (exists i :: 0 <= i < |db.routers| && identifier <= db.routers[i].id)
                       || (exists i :: 0 <= i < |db.routers| && db.routers[i].name == identifier)
    ensures !res.1 ==> res.0 == db
    ensures res.1 ==> (exists k :: 0 <= k < |db.routers| &&
                        res.0.routers == Without(db.routers, k) &&
                        (if exists i :: 0 <= i < |db.routers| && identifier <= db.routers[i].id
                         then identifier <= db.routers[k].id
                         else db.routers[k].name == identifier))
    ensures res.0.settings == db.settings
  {
    var res := RemoveWith(db, identifier, IsIdPrefix);
    assert IdHit(db.routers, identifier, IsIdPrefix)
       <==> exists i :: 0 <= i < |db.routers| && identifier <= db.routers[i].id by {
      forall i | 0 <= i < |db.routers|
        ensures IsIdPrefix(db.routers[i].id, identifier) == (identifier <= db.routers[i].id)
      {
      }
    }
    res
  }

  /** Two filters that agree on every row find the same row. */
  lemma {:induction false} FirstIndexAgrees(rs: seq<Router>, m1: Router -> bool, m2: Router -> bool)
    requires forall i :: 0 <= i < |rs| ==> m1(rs[i]) == m2(rs[i])
    ensures FirstIndex(rs, m1) == FirstIndex(rs, m2)
  {
    if |rs| > 0 && !m1(rs[0]) {
      assert forall i :: 0 <= i < |rs[1..]| ==> rs[1..][i] == rs[i + 1];
      FirstIndexAgrees(rs[1..], m1, m2);
    }
  }

  /** Two id matchers that agree on every stored id delete the same row. */
  lemma RemoveWithAgrees(db: Db, identifier: string, m1: (string, string) -> bool, m2: (string, string) -> bool)
    requires forall i :: 0 <= i < |db.routers| ==> m1(db.routers[i].id, identifier) == m2(db.routers[i].id, identifier)
    ensures RemoveWith(db, identifier, m1) == RemoveWith(db, identifier, m2)
  {
    FirstIndexAgrees(db.routers, (r: Router) => m1(r.id, identifier), (r: Router) => m2(r.id, identifier));
  }

  /** `save_acme_info`: updates the first settings row in place, or
      inserts one when the table is empty. */
  function SaveAcmeInfo(db: Db, acmeEmail: string, certDir: string): (db': Db)
    ensures db'.routers == db.routers
    ensures Settings(acmeEmail, certDir) in db'.settings
    ensures |db.settings| > 0 ==> |db'.settings| == |db.settings|
    ensures |db.settings| <= 1 ==> db'.settings == [Settings(acmeEmail, certDir)]
  {
    var s := Settings(acmeEmail, certDir);
    if |db.settings| == 0 then db.(settings := [s])
    else
      var rows := db.settings[0 := s];
      assert rows[0] == s;
      db.(settings := rows)
  }

  /** `get_acme_info`: some settings row, or None when there is none. */
  function GetAcmeInfo(db: Db): (o: Option<Settings>)
    ensures o.None? <==> |db.settings| == 0
    ensures o.Some? ==> o.value in db.settings
  {
    if |db.settings| == 0 then None else Some(db.settings[0])
  }

  /** Saving then reading back yields exactly the saved values. */
  lemma SaveThenGet(db: Db, acmeEmail: string, certDir: string)
    ensures GetAcmeInfo(SaveAcmeInfo(db, acmeEmail, certDir)) == Some(Settings(acmeEmail, certDir))
  {
  }

  /** Two saves leave one row holding the second call's values. */
  lemma SaveTwice(db: Db, e1: string, d1: string, e2: string, d2: string)
    requires |db.settings| <= 1
    ensures SaveAcmeInfo(SaveAcmeInfo(db, e1, d1), e2, d2).settings == [Settings(e2, d2)]
  {
  }

  /** Listing after an insert yields the earlier listing plus the new row. */
  lemma GetRoutersAfterAdd(
    db: Db, id: string, name: string, domain: string, serviceName: string,
    serviceUrl: string, entrypoints: string, tls: bool)
    ensures var res := AddRouter(db, id, name, domain, serviceName, serviceUrl, entrypoints, tls);
            GetRouters(res.db) == GetRouters(db) + [res.router]
  {
  }

  /** The abbreviated id of a router whose abbreviation no other id begins
      with deletes exactly that router. */
  lemma RemoveByShortId(db: Db, i: nat)
    requires i < |db.routers|
    requires forall j :: 0 <= j < |db.routers| && j != i ==> !(ShortId(db.routers[i].id) <= db.routers[j].id)
    ensures RemoveRouter(db, ShortId(db.routers[i].id)) == (db.(routers := Without(db.routers, i)), true)
  {
    var x := ShortId(db.routers[i].id);
    var res := RemoveRouter(db, x);
    assert x <= db.routers[i].id;
    var k :| 0 <= k < |db.routers| && res.0.routers == Without(db.routers, k) && x <= db.routers[k].id;
    assert k == i;
  }

  /** An empty identifier is a prefix of every id, so on a non-empty store
      it always deletes some router. */
  lemma EmptyIdentifierRemovesSome(db: Db)
    requires |db.routers| > 0
    ensures RemoveRouter(db, "").1
    ensures |RemoveRouter(db, "").0.routers| == |db.routers| - 1
  {
    assert "" <= db.routers[0].id;
  }

  /** Pairwise distinct router ids: the uniqueness the uuid primary key gives. */
  predicate UniqueIds(rs: seq<Router>)
  {
    forall i, j :: 0 <= i < j < |rs| ==> rs[i].id != rs[j].id
  }

  /** The ids present in a list of routers. */
  function Ids(rs: seq<Router>): set<string>
  {
    set i | 0 <= i < |rs| :: rs[i].id
  }

  /** An insert with a fresh id keeps ids distinct: the invariant the
      uuid primary key maintains. */
  lemma AddRouterKeepsUniqueIds(
    db: Db, id: string, name: string, domain: string, serviceName: string,
    serviceUrl: string, entrypoints: string, tls: bool)
    requires UniqueIds(db.routers) && id !in Ids(db.routers)
    ensures UniqueIds(AddRouter(db, id, name, domain, serviceName, serviceUrl, entrypoints, tls).db.routers)
  {
    var after := AddRouter(db, id, name, domain, serviceName, serviceUrl, entrypoints, tls).db.routers;
    forall i, j | 0 <= i < j < |after| ensures after[i].id != after[j].id {
      if j == |db.routers| {
        assert after[i] == db.routers[i];
      }
    }
  }

  /** One command's effect on the store: the three mutating operations. */
  datatype Op =
    | AddOp(id: string, name: string, domain: string, serviceName: string,
            serviceUrl: string, entrypoints: string, tls: bool)
    | RemoveOp(identifier: string)
    | SaveAcmeOp(acmeEmail: string, certDir: string)

  /** One operation applied to the store. Deletion runs the policy of
      `remove_router` under the id matcher `idMatch`: `IsIdPrefix` for the
      literal prefix test, or the LIKE test the ORM actually runs. */
  function Apply(db: Db, op: Op, idMatch: (string, string) -> bool): Db
  {
    match op
    case AddOp(id, n, d, sn, su, ep, t) => AddRouter(db, id, n, d, sn, su, ep, t).db
    case RemoveOp(x) => RemoveWith(db, x, idMatch).0
    case SaveAcmeOp(e, c) => SaveAcmeInfo(db, e, c)
  }

  /** The store after running a history of operations in order. */
  function Run(db: Db, ops: seq<Op>, idMatch: (string, string) -> bool): Db
  {
    if |ops| == 0 then db else Apply(Run(db, ops[..|ops| - 1], idMatch), ops[|ops| - 1], idMatch)
  }

  /** The ids the uuid generator handed out during a history. */
  function OpIds(ops: seq<Op>): set<string>
  {
    set i | 0 <= i < |ops| && ops[i].AddOp? :: ops[i].id
  }

  /** The uuid assumption: every insert of a history gets an id no other
      insert of it got. */
  predicate DistinctOpIds(ops: seq<Op>)
  {
    forall i, j :: 0 <= i < j < |ops| && ops[i].AddOp? && ops[j].AddOp? ==> ops[i].id != ops[j].id
  }

  /** Deleting a row keeps the remaining ids distinct and adds no id. */
  lemma {:induction false} WithoutKeepsIds(rs: seq<Router>, k: nat)
    requires k < |rs| && UniqueIds(rs)
    ensures UniqueIds(Without(rs, k))
    ensures Ids(Without(rs, k)) <= Ids(rs)
  {
    var rest := Without(rs, k);
    forall i, j | 0 <= i < j < |rest| ensures rest[i].id != rest[j].id {
      var i' := if i < k then i else i + 1;
      var j' := if j < k then j else j + 1;
      assert rest[i] == rs[i'] && rest[j] == rs[j'];
    }
    forall x | x in Ids(rest) ensures x in Ids(rs) {
      var i :| 0 <= i < |rest| && rest[i].id == x;
      var i' := if i < k then i else i + 1;
      assert rs[i'].id == x;
    }
  }

  /** Every id in the store after a history from the empty store was
      handed out by one of its inserts, and ids stay distinct, whichever
      id matcher deletion uses. */
  lemma {:induction false} RunIds(ops: seq<Op>, idMatch: (string, string) -> bool)
    requires DistinctOpIds(ops)
    ensures Ids(Run(EmptyDb, ops, idMatch).routers) <= OpIds(ops)
    ensures UniqueIds(Run(EmptyDb, ops, idMatch).routers)
  {
    if |ops| > 0 {
      var init := ops[..|ops| - 1];
      var last := ops[|ops| - 1];
      assert DistinctOpIds(init);
      RunIds(init, idMatch);
      var before := Run(EmptyDb, init, idMatch);
      assert OpIds(init) <= OpIds(ops) by {
        forall x | x in OpIds(init) ensures x in OpIds(ops) {
          var i :| 0 <= i < |init| && init[i].AddOp? && init[i].id == x;
          assert ops[i] == init[i];
        }
      }
      match last
      case AddOp(id, n, d, sn, su, ep, t) =>
        var after := AddRouter(before, id, n, d, sn, su, ep, t).db.routers;
        assert id !in OpIds(init) by {
          forall i | 0 <= i < |init| && init[i].AddOp? ensures init[i].id != id {
            assert ops[i] == init[i];
          }
        }
        assert id in OpIds(ops) by {
          assert ops[|ops| - 1].AddOp? && ops[|ops| - 1].id == id;
        }
        assert after == before.routers + [after[|before.routers|]];
        forall x | x in Ids(after) ensures x in OpIds(ops) {
          var i :| 0 <= i < |after| && after[i].id == x;
          if i < |before.routers| {
            assert before.routers[i].id == x;
            assert x in Ids(before.routers);
          }
        }
        forall i, j | 0 <= i < j < |after| ensures after[i].id != after[j].id {
          if j == |before.routers| {
            assert after[i] == before.routers[i];
            assert after[i].id in Ids(before.routers);
          }
        }
      case RemoveOp(x) =>
        var res := RemoveWith(before, x, idMatch);
        if res.1 {
          var k :| 0 <= k < |before.routers| && res.0.routers == Without(before.routers, k);
          WithoutKeepsIds(before.routers, k);
        }
      case SaveAcmeOp(e, c) =>
    }
  }

  /** At most one settings row ever exists, and after any save exactly one
      does: the singleton invariant of the settings table, whichever id
      matcher deletion uses. */
  lemma {:induction false} RunSettingsSingleton(ops: seq<Op>, idMatch: (string, string) -> bool)
    ensures |Run(EmptyDb, ops, idMatch).settings| <= 1
    ensures (exists i :: 0 <= i < |ops| && ops[i].SaveAcmeOp?) ==> |Run(EmptyDb, ops, idMatch).settings| == 1
  {
    if |ops| > 0 {
      var init := ops[..|ops| - 1];
      RunSettingsSingleton(init, idMatch);
      if exists i :: 0 <= i < |ops| && ops[i].SaveAcmeOp? {
        if !ops[|ops| - 1].SaveAcmeOp? {
          var i :| 0 <= i < |ops| && ops[i].SaveAcmeOp?;
          assert init[i].SaveAcmeOp?;
        }
      }
    }
  }
}
