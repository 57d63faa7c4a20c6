/** How `remove_router`'s id lookup behaves as written: the ORM's
    `startswith(identifier)` becomes the SQL test `id LIKE identifier || '%'`
    with no escaping, so `%` and `_` inside the identifier are wildcards. */
module SqlLike {
  import opened Models
  import opened Store

  /** SQL LIKE over the whole string: `%` matches any run of characters,
      `_` exactly one character, every other character itself. No escape
      character is declared. */
  function LikeMatch(pattern: string, s: string): bool
    decreases |pattern|
  {
    if |pattern| == 0 then |s| == 0
    else if pattern[0] == '%' then exists k | 0 <= k <= |s| :: LikeMatch(pattern[1..], s[k..])
    else if pattern[0] == '_' then |s| > 0 && LikeMatch(pattern[1..], s[1..])
    else |s| > 0 && s[0] == pattern[0] && LikeMatch(pattern[1..], s[1..])
  }

  /** The id test as the source writes it: `id LIKE identifier || '%'`. */
  predicate StartsWithAsWritten(id: string, identifier: string)
  {
    LikeMatch(identifier + "%", id)
  }

  /** No LIKE wildcard in the identifier. */
  predicate WildcardFree(identifier: string)
  {
    forall i :: 0 <= i < |identifier| ==> identifier[i] != '%' && identifier[i] != '_'
  }

  /** A lone trailing `%` matches every string. */
  lemma PercentMatchesAll(s: string)
    ensures LikeMatch("%", s)
  {
    assert LikeMatch("", s[|s|..]);
  }

  /** On identifiers without wildcards the test as written is the literal
      prefix test that the deletion policy means. */
  lemma {:induction false} WildcardFreeIsPrefix(id: string, identifier: string)
    requires WildcardFree(identifier)
    ensures StartsWithAsWritten(id, identifier) <==> identifier <= id
  {
    if |identifier| == 0 {
      PercentMatchesAll(id);
    } else {
      var rest := identifier[1..];
      assert (identifier + "%")[1..] == rest + "%";
      assert WildcardFree(rest) by {
        forall i | 0 <= i < |rest| ensures rest[i] != '%' && rest[i] != '_' {
          assert rest[i] == identifier[i + 1];
        }
      }
      if |id| > 0 {
        WildcardFreeIsPrefix(id[1..], rest);
        assert identifier <= id <==> id[0] == identifier[0] && rest <= id[1..];
      }
    }
  }

  /** `remove_router` as written: the same policy, with the LIKE test for ids. */
  function RemoveRouterAsWritten(db: Db, identifier: string): (res: (Db, bool))
    ensures res.1 <==> (exists i :: 0 <= i < |db.routers| && StartsWithAsWritten(db.routers[i].id, identifier))
                       || (exists i :: 0 <= i < |db.routers| && db.routers[i].name == identifier)
    ensures !res.1 ==> res.0 == db
    ensures res.1 ==> (exists k :: 0 <= k < |db.routers| &&
                        res.0.routers == Without(db.routers, k) &&
                        (if exists i :: 0 <= i < |db.routers| && StartsWithAsWritten(db.routers[i].id, identifier)
                         then StartsWithAsWritten(db.routers[k].id, identifier)
                         else db.routers[k].name == identifier))
    ensures res.0.settings == db.settings
  {
    RemoveWith(db, identifier, StartsWithAsWritten)
  }

  /** In this case-sensitive model only identifiers containing `%` or `_`
      are handled differently: for every other identifier, `remove_router`
      as written and the literal deletion policy give the same store and
      the same answer. */
  lemma WildcardFreeRemoveAgrees(db: Db, identifier: string)
    requires WildcardFree(identifier)
    ensures RemoveRouterAsWritten(db, identifier) == RemoveRouter(db, identifier)
  {
    forall i | 0 <= i < |db.routers|
      ensures StartsWithAsWritten(db.routers[i].id, identifier) == IsIdPrefix(db.routers[i].id, identifier)
    {
      WildcardFreeIsPrefix(db.routers[i].id, identifier);
    }
    RemoveWithAgrees(db, identifier, StartsWithAsWritten, IsIdPrefix);
  }

  /** The store invariants hold for histories whose deletions run as
      written: ids stay distinct and were all issued by inserts, and the
      settings table never holds more than one row. */
  lemma AsWrittenHistoryInvariants(ops: seq<Op>)
    requires DistinctOpIds(ops)
    ensures Ids(Run(EmptyDb, ops, StartsWithAsWritten).routers) <= OpIds(ops)
    ensures UniqueIds(Run(EmptyDb, ops, StartsWithAsWritten).routers)
    ensures |Run(EmptyDb, ops, StartsWithAsWritten).settings| <= 1
  {
    RunIds(ops, StartsWithAsWritten);
    RunSettingsSingleton(ops, StartsWithAsWritten);
  }

  /** "a_b%" matches the id "a0b1c2d3": 'a', any one character, 'b', then the rest. */
  lemma UnderscoreMatchesId()
    ensures StartsWithAsWritten("a0b1c2d3", "a_b")
  {
    assert "a_b" + "%" == ['a', '_', 'b', '%'];
    PercentMatchesAll("1c2d3");
    assert "b1c2d3"[1..] == "1c2d3";
    assert LikeMatch(['b', '%'], "b1c2d3");
    assert "0b1c2d3"[1..] == "b1c2d3";
    assert LikeMatch(['_', 'b', '%'], "0b1c2d3");
    assert "a0b1c2d3"[1..] == "0b1c2d3";
  }

  /** "a_b%" does not match an id starting with 'f'. */
  lemma UnderscoreMissesId()
    ensures !StartsWithAsWritten("ffff0000", "a_b")
  {
    assert "a_b" + "%" == ['a', '_', 'b', '%'];
  }

  /** Two stored routers: one whose uuid happens to start "a0b", and one
      named "a_b". */
  const Web := Router("a0b1c2d3", "web", "web.example.com", "web-svc", "http://10.0.0.1:80", "websecure", true)
  const Ab := Router("ffff0000", "a_b", "ab.example.com", "ab-svc", "http://10.0.0.2:80", "websecure", true)

  /** As written, `remove_router("a_b")` deletes the router named "web":
      `_` in "a_b" matches the "0" of its id, so the id lookup succeeds and
      the name lookup is never consulted. */
  lemma UnderscoreDeletesWrongRouter()
    ensures RemoveRouterAsWritten(Db([Web, Ab], []), "a_b") == (Db([Ab], []), true)
  {
    var db := Db([Web, Ab], []);
    UnderscoreMatchesId();
    UnderscoreMissesId();
    assert Without(db.routers, 1) == [Web];
    var res := RemoveRouterAsWritten(db, "a_b");
    var k :| 0 <= k < 2 && res.0.routers == Without(db.routers, k) &&
             StartsWithAsWritten(db.routers[k].id, "a_b");
    assert k == 0;
    assert Without(db.routers, 0) == [Ab];
  }

  /** With the literal prefix test no id starts with "a_b", so the name
      lookup deletes the router named "a_b", as the deletion policy means. */
  lemma LiteralPrefixDeletesNamedRouter()
    ensures RemoveRouter(Db([Web, Ab], []), "a_b") == (Db([Web], []), true)
  {
    var db := Db([Web, Ab], []);
    assert "a_b"[1] != Web.id[1] && "a_b"[0] != Ab.id[0];
    assert !("a_b" <= Web.id) && !("a_b" <= Ab.id);
    assert forall i :: 0 <= i < |db.routers| ==> !("a_b" <= db.routers[i].id);
    assert db.routers[1].name == "a_b";
    var res := RemoveRouter(db, "a_b");
    var k :| 0 <= k < 2 && res.0.routers == Without(db.routers, k) && db.routers[k].name == "a_b";
    assert k == 1;
    assert Without(db.routers, 1) == [Web];
  }
}
