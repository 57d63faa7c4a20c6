/** The store-facing part of the `add` and `init` commands, in the current
    package and in the older top-level script. Prompting is replaced by the
    values the user entered. */
module Commands {
  import opened Models
  import opened Store
  import Export

  /** The listener every router added from the command line is bound to. */
  const WebSecure := "websecure"

  /** What the user enters for one router, together with the uuid the
      store will assign to it. */
  datatype Entry = Entry(id: string, name: string, rule: string, serviceName: string, serviceUrl: string)

  /** The row an entry becomes. */
  function ToRouter(e: Entry, tls: bool): Router
  {
    Router(e.id, e.name, e.rule, e.serviceName, e.serviceUrl, WebSecure, tls)
  }

  /** No two stored routers share a name, and no two share a domain. */
  predicate NoClash(rs: seq<Router>)
  {
    forall i, j :: 0 <= i < j < |rs| ==> rs[i].name != rs[j].name && rs[i].domain != rs[j].domain
  }

  /** Row `r` is what one of the entries becomes. */
  predicate FromEntries(r: Router, entries: seq<Entry>, tls: bool)
  {
    exists k :: 0 <= k < |entries| && r == ToRouter(entries[k], tls)
  }

  /** Row `i` shares neither its name nor its domain with any earlier row. */
  predicate FreshRow(rs: seq<Router>, i: int)
  {
    0 <= i < |rs| && forall j :: 0 <= j < i ==> rs[j].name != rs[i].name && rs[j].domain != rs[i].domain
  }

  /** `add`: refuse the entry when its name or domain is already stored,
      otherwise store it on the secure listener. Returns whether it was
      added. */
  function Add(db: Db, e: Entry, tls: bool): (res: (Db, bool))
    ensures res.1 <==> forall i :: 0 <= i < |db.routers| ==>
                        db.routers[i].name != e.name && db.routers[i].domain != e.rule
    ensures !res.1 ==> res.0 == db
    ensures res.1 ==> res.0 == db.(routers := db.routers + [ToRouter(e, tls)])
  {
    if IsRouterDuplicate(db, e.name, e.rule) then (db, false)
    else (AddRouter(db, e.id, e.name, e.rule, e.serviceName, e.serviceUrl, WebSecure, tls).db, true)
  }

  /** A guarded insert keeps the store free of clashes. */
  lemma AddKeepsNoClash(db: Db, e: Entry, tls: bool)
    ensures NoClash(db.routers) ==> NoClash(Add(db, e, tls).0.routers)
  {
  }

  /** The router loop of `init`: every entry is checked against the store
      as it stands when the entry is processed; a clashing entry is
      skipped and the loop continues with the next one. Every appended row
      is one of the entries on the secure listener, and clashes with no
      row before it, whatever the starting store holds. */
  function Init(db: Db, entries: seq<Entry>, tls: bool): (db': Db)
    ensures db'.settings == db.settings
    ensures |db.routers| <= |db'.routers| <= |db.routers| + |entries|
    ensures db'.routers[..|db.routers|] == db.routers
    ensures forall i :: |db.routers| <= i < |db'.routers| ==>
              db'.routers[i].entrypoints == WebSecure && db'.routers[i].tls == tls
    ensures forall i :: |db.routers| <= i < |db'.routers| ==> FromEntries(db'.routers[i], entries, tls)
    ensures forall i :: |db.routers| <= i < |db'.routers| ==> FreshRow(db'.routers, i)
    ensures NoClash(db.routers) ==> NoClash(db'.routers)
  {
    if |entries| == 0 then db
    else
      var before := Init(db, entries[..|entries| - 1], tls);
      AddKeepsNoClash(before, entries[|entries| - 1], tls);
      InitStep(|db.routers|, before, entries, tls);
      Add(before, entries[|entries| - 1], tls).0
  }

  /** One iteration of the `init` loop keeps the appended rows drawn from
      the entries and each free of clashes with the rows before it. */
  lemma InitStep(start: nat, before: Db, entries: seq<Entry>, tls: bool)
    requires |entries| > 0 && start <= |before.routers|
    requires forall i :: start <= i < |before.routers| ==> FromEntries(before.routers[i], entries[..|entries| - 1], tls)
    requires forall i :: start <= i < |before.routers| ==> FreshRow(before.routers, i)
    ensures var after := Add(before, entries[|entries| - 1], tls).0.routers;
            forall i :: start <= i < |after| ==> FromEntries(after[i], entries, tls) && FreshRow(after, i)
  {
    var prefix := entries[..|entries| - 1];
    var last := entries[|entries| - 1];
    var after := Add(before, last, tls).0.routers;
    forall i | start <= i < |after| ensures FromEntries(after[i], entries, tls) && FreshRow(after, i) {
      if i < |before.routers| {
        assert after[i] == before.routers[i];
        var k :| 0 <= k < |prefix| && before.routers[i] == ToRouter(prefix[k], tls);
        assert prefix[k] == entries[k];
        assert FreshRow(before.routers, i);
        assert forall j :: 0 <= j <= i ==> after[j] == before.routers[j];
      } else {
        assert after[i] == ToRouter(entries[|entries| - 1], tls);
      }
    }
  }

  /** The last entry is processed last, against the store the earlier
      entries left. */
  lemma InitUnfold(db: Db, entries: seq<Entry>, tls: bool)
    requires |entries| > 0
    ensures Init(db, entries, tls) == Add(Init(db, entries[..|entries| - 1], tls), entries[|entries| - 1], tls).0
  {
  }

  /** Entries are processed in the order entered: running the loop over
      two batches one after the other is running it over their
      concatenation. */
  lemma {:induction false} InitConcat(db: Db, es1: seq<Entry>, es2: seq<Entry>, tls: bool)
    ensures Init(db, es1 + es2, tls) == Init(Init(db, es1, tls), es2, tls)
  {
    if |es2| == 0 {
      assert es1 + es2 == es1;
    } else {
      var init2 := es2[..|es2| - 1];
      var all := es1 + es2;
      InitConcat(db, es1, init2, tls);
      assert all[..|all| - 1] == es1 + init2;
      assert all[|all| - 1] == es2[|es2| - 1];
      InitUnfold(db, all, tls);
      InitUnfold(Init(db, es1, tls), es2, tls);
    }
  }

  /** The first of two clashing entries wins: when the first clashes with
      nothing stored and the second shares its name or domain, the store
      gains exactly the first. */
  lemma FirstWins(db: Db, e1: Entry, e2: Entry, tls: bool)
    requires forall i :: 0 <= i < |db.routers| ==> db.routers[i].name != e1.name && db.routers[i].domain != e1.rule
    requires e2.name == e1.name || e2.rule == e1.rule
    ensures Init(db, [e1, e2], tls) == db.(routers := db.routers + [ToRouter(e1, tls)])
  {
    assert [e1, e2][..1] == [e1];
    assert [e1][..0] == [];
    InitUnfold(db, [e1], tls);
    var one := Init(db, [e1], tls);
    assert one.routers[|db.routers|] == ToRouter(e1, tls);
    InitUnfold(db, [e1, e2], tls);
  }

  /** Entries that clash neither with each other nor with any stored row
      are all stored, in the order entered, whatever the stored rows hold
      among themselves: the guarded loop then does what the unchecked loop
      of the older script does. */
  lemma {:induction false} InitWithoutClashIsLegacy(db: Db, entries: seq<Entry>, tls: bool)
    requires forall i, k :: 0 <= i < |db.routers| && 0 <= k < |entries| ==>
               db.routers[i].name != entries[k].name && db.routers[i].domain != entries[k].rule
    requires forall k, l :: 0 <= k < l < |entries| ==>
               entries[k].name != entries[l].name && entries[k].rule != entries[l].rule
    ensures Init(db, entries, tls) == LegacyInit(db, entries, tls)
  {
    if |entries| > 0 {
      var prefix := entries[..|entries| - 1];
      var last := entries[|entries| - 1];
      assert forall k :: 0 <= k < |prefix| ==> prefix[k] == entries[k];
      InitWithoutClashIsLegacy(db, prefix, tls);
      LegacyRowsAvoid(db, prefix, tls, last);
      InitUnfold(db, entries, tls);
      var before := LegacyInit(db, prefix, tls);
      var added := AddRouter(before, last.id, last.name, last.rule, last.serviceName, last.serviceUrl, WebSecure, tls).db;
      assert added.routers == before.routers + [ToRouter(last, tls)];
    }
  }

  /** An entry that clashes with no stored row and with none of the
      entries clashes with no row the unchecked loop stores. */
  lemma LegacyRowsAvoid(db: Db, entries: seq<Entry>, tls: bool, e: Entry)
    requires forall i :: 0 <= i < |db.routers| ==> db.routers[i].name != e.name && db.routers[i].domain != e.rule
    requires forall k :: 0 <= k < |entries| ==> entries[k].name != e.name && entries[k].rule != e.rule
    ensures var rs := LegacyInit(db, entries, tls).routers;
            forall i :: 0 <= i < |rs| ==> rs[i].name != e.name && rs[i].domain != e.rule
  {
    var rs := LegacyInit(db, entries, tls).routers;
    forall i | 0 <= i < |rs| ensures rs[i].name != e.name && rs[i].domain != e.rule {
      if i < |db.routers| {
        assert rs[..|db.routers|][i] == db.routers[i];
      } else {
        assert rs[|db.routers| + (i - |db.routers|)] == ToRouter(entries[i - |db.routers|], tls);
      }
    }
  }

  /** After `init`, every entered router is represented in the store: it
      was either added or skipped because a router with its name or domain
      was already there. */
  lemma {:induction false} InitCoversEntries(db: Db, entries: seq<Entry>, tls: bool, k: int)
    requires 0 <= k < |entries|
    ensures exists i :: 0 <= i < |Init(db, entries, tls).routers| &&
              (Init(db, entries, tls).routers[i].name == entries[k].name ||
               Init(db, entries, tls).routers[i].domain == entries[k].rule)
  {
    var prefix := entries[..|entries| - 1];
    var before := Init(db, prefix, tls);
    var after := Init(db, entries, tls);
    var last := entries[|entries| - 1];
    assert after == Add(before, last, tls).0;
    assert before.routers <= after.routers;
    if k < |entries| - 1 {
      assert prefix[k] == entries[k];
      InitCoversEntries(db, prefix, tls, k);
      var i :| 0 <= i < |before.routers| &&
               (before.routers[i].name == entries[k].name || before.routers[i].domain == entries[k].rule);
      assert after.routers[i] == before.routers[i];
    } else if Add(before, last, tls).1 {
      assert after.routers[|before.routers|] == ToRouter(last, tls);
    } else {
      var i :| 0 <= i < |before.routers| &&
               (before.routers[i].name == last.name || before.routers[i].domain == last.rule);
      assert after.routers[i] == before.routers[i];
    }
  }

  /** The router loop of the older script: every entry is stored, with no
      duplicate check. */
  function LegacyInit(db: Db, entries: seq<Entry>, tls: bool): (db': Db)
    ensures db'.settings == db.settings
    ensures |db'.routers| == |db.routers| + |entries|
    ensures db'.routers[..|db.routers|] == db.routers
    ensures forall k :: 0 <= k < |entries| ==> db'.routers[|db.routers| + k] == ToRouter(entries[k], tls)
  {
    if |entries| == 0 then db
    else
      var before := LegacyInit(db, entries[..|entries| - 1], tls);
      var last := entries[|entries| - 1];
      AddRouter(before, last.id, last.name, last.rule, last.serviceName, last.serviceUrl, WebSecure, tls).db
  }

  /** Without the check, the older script stores two routers named alike,
      and the export then keeps only the second of them. */
  lemma LegacyInitAdmitsClash()
    ensures var e1 := Entry("id-1", "api", "a.example.com", "api-svc", "http://10.0.0.1:80");
            var e2 := Entry("id-2", "api", "b.example.com", "api-svc", "http://10.0.0.2:80");
            var rs := LegacyInit(EmptyDb, [e1, e2], true).routers;
            && !NoClash(rs)
            && Export.Fold(rs).routers.Keys == {"api"}
            && Export.Fold(rs).routers["api"] == Export.RouterEntry(ToRouter(e2, true))
  {
    var e1 := Entry("id-1", "api", "a.example.com", "api-svc", "http://10.0.0.1:80");
    var e2 := Entry("id-2", "api", "b.example.com", "api-svc", "http://10.0.0.2:80");
    var rs := LegacyInit(EmptyDb, [e1, e2], true).routers;
    assert rs == [ToRouter(e1, true), ToRouter(e2, true)];
    assert Export.LastNamed(rs, 1);
    Export.RoutersLastWriteWins(rs, 1);
    Export.SectionKeys(rs);
    assert (set i | 0 <= i < |rs| :: rs[i].name) == {"api"} by {
      assert rs[0].name == "api";
    }
  }

  /** The same two entries through the current `init`: the second is
      skipped because its name is taken. */
  lemma InitSkipsClash()
    ensures var e1 := Entry("id-1", "api", "a.example.com", "api-svc", "http://10.0.0.1:80");
            var e2 := Entry("id-2", "api", "b.example.com", "api-svc", "http://10.0.0.2:80");
            Init(EmptyDb, [e1, e2], true).routers == [ToRouter(e1, true)]
  {
    var e1 := Entry("id-1", "api", "a.example.com", "api-svc", "http://10.0.0.1:80");
    var e2 := Entry("id-2", "api", "b.example.com", "api-svc", "http://10.0.0.2:80");
    assert [e1, e2][..1] == [e1];
    assert [e1][..0] == [];
    var one := Init(EmptyDb, [e1], true);
    assert one.routers == [ToRouter(e1, true)];
    assert IsRouterDuplicate(one, e2.name, e2.rule);
  }
}
