/** The `export` command's projection from the stored routers to the
    dynamic configuration document (`http.routers`, `http.services`,
    `http.middlewares`), kept as an in-memory tree before YAML encoding. */
module Export {
  import opened Models

  /** A YAML-like document: a string scalar, a list or a string-keyed
      mapping. Absent keys are absent, never present with a false value. */
  datatype Node = Str(s: string) | List(items: seq<Node>) | Dict(entries: map<string, Node>)

  /** The certificate resolver every TLS-enabled router refers to. */
  const CertResolver := "letsencrypt"

  /** The routing rule written for a domain: Host(`domain`). */
  function Rule(domain: string): (rule: string)
    ensures |rule| == |domain| + 8
    ensures rule[..6] == "Host(`" && rule[|rule| - 2..] == "`)"
    ensures rule[6..|rule| - 2] == domain
  {
    "Host(`" + domain + "`)"
  }

  /** The value of the `tls` key of a TLS-enabled router entry. */
  const TlsNode := Dict(map["certResolver" := Str(CertResolver)])

  /** The entry of a router as the loop body first writes it, without `tls`. */
  function BaseEntry(r: Router): Node
  {
    Dict(map["rule" := Str(Rule(r.domain)),
             "service" := Str(r.serviceName),
             "entryPoints" := List([Str(r.entrypoints)])])
  }

  /** The complete entry of a router in `http.routers`: the base entry,
      with a `tls` key added exactly when the router has TLS enabled. */
  function RouterEntry(r: Router): (n: Node)
    ensures n.Dict?
    ensures n.entries.Keys == {"rule", "service", "entryPoints"} + (if r.tls then {"tls"} else {})
    ensures n.entries["rule"] == Str("Host(`" + r.domain + "`)")
    ensures n.entries["service"] == Str(r.serviceName)
    ensures n.entries["entryPoints"] == List([Str(r.entrypoints)])
    ensures "tls" in n.entries <==> r.tls
    ensures r.tls ==> n.entries["tls"] == Dict(map["certResolver" := Str("letsencrypt")])
  {
    var base := BaseEntry(r);
    if r.tls then Dict(base.entries["tls" := TlsNode]) else base
  }

  /** The entry of a service in `http.services`: one load-balanced server. */
  function ServiceEntry(r: Router): Node
  {
    Dict(map["loadBalancer" := Dict(map["servers" := List([Dict(map["url" := Str(r.serviceUrl)])])])])
  }

  /** The two sections the export loop fills in. */
  datatype Sections = Sections(routers: map<string, Node>, services: map<string, Node>)

  /** One iteration of the export loop: write the router entry under its
      name, add `tls` to it when enabled, then write the service entry
      under its service name. Earlier entries with the same key are
      overwritten. */
  function Step(acc: Sections, r: Router): Sections
  {
    var routers := acc.routers[r.name := BaseEntry(r)];
    var routers' := if r.tls then routers[r.name := Dict(routers[r.name].entries["tls" := TlsNode])] else routers;
    Sections(routers', acc.services[r.serviceName := ServiceEntry(r)])
  }

  /** The export loop over the routers in list order, from empty sections. */
  function Fold(rs: seq<Router>): Sections
  {
    if |rs| == 0 then Sections(map[], map[])
    else Step(Fold(rs[..|rs| - 1]), rs[|rs| - 1])
  }

  /** The whole dynamic configuration document. */
  function DynamicConfig(rs: seq<Router>): (doc: Node)
    ensures doc.Dict? && doc.entries.Keys == {"http"}
    ensures var http := doc.entries["http"];
            && http.Dict?
            && http.entries.Keys == {"routers", "services", "middlewares"}
            && http.entries["routers"] == Dict(Fold(rs).routers)
            && http.entries["services"] == Dict(Fold(rs).services)
            && http.entries["middlewares"] == Dict(map[])
  {
    var sections := Fold(rs);
    Dict(map["http" := Dict(map["routers" := Dict(sections.routers),
                                "services" := Dict(sections.services),
                                "middlewares" := Dict(map[])])])
  }

  /** Router `i` is the last one in list order with its name. */
  predicate LastNamed(rs: seq<Router>, i: int)
  {
    0 <= i < |rs| && forall j :: i < j < |rs| ==> rs[j].name != rs[i].name
  }

  /** Router `i` is the last one in list order with its service name. */
  predicate LastServed(rs: seq<Router>, i: int)
  {
    0 <= i < |rs| && forall j :: i < j < |rs| ==> rs[j].serviceName != rs[i].serviceName
  }

  /** The loop body writes exactly the complete router entry. */
  lemma StepWritesEntries(acc: Sections, r: Router)
    ensures Step(acc, r).routers == acc.routers[r.name := RouterEntry(r)]
    ensures Step(acc, r).services == acc.services[r.serviceName := ServiceEntry(r)]
  {
  }

  /** The keys of `http.routers` are exactly the stored router names, and
      the keys of `http.services` exactly the stored service names. */
  lemma {:induction false} SectionKeys(rs: seq<Router>)
    ensures Fold(rs).routers.Keys == set i | 0 <= i < |rs| :: rs[i].name
    ensures Fold(rs).services.Keys == set i | 0 <= i < |rs| :: rs[i].serviceName
  {
    if |rs| > 0 {
      var init := rs[..|rs| - 1];
      SectionKeys(init);
      assert forall i :: 0 <= i < |init| ==> init[i] == rs[i];
      var names := set i | 0 <= i < |rs| :: rs[i].name;
      var names' := set i | 0 <= i < |init| :: init[i].name;
      assert names == names' + {rs[|rs| - 1].name} by {
        forall x | x in names ensures x in names' + {rs[|rs| - 1].name} {
          var i :| 0 <= i < |rs| && rs[i].name == x;
          if i < |init| { assert init[i].name == x; }
        }
      }
      var svcs := set i | 0 <= i < |rs| :: rs[i].serviceName;
      var svcs' := set i | 0 <= i < |init| :: init[i].serviceName;
      assert svcs == svcs' + {rs[|rs| - 1].serviceName} by {
        forall x | x in svcs ensures x in svcs' + {rs[|rs| - 1].serviceName} {
          var i :| 0 <= i < |rs| && rs[i].serviceName == x;
          if i < |init| { assert init[i].serviceName == x; }
        }
      }
    }
  }

  /** Last write wins in `http.routers`: the entry under a name is the
      complete entry of the last router in list order with that name. */
  lemma {:induction false} RoutersLastWriteWins(rs: seq<Router>, i: int)
    requires LastNamed(rs, i)
    ensures rs[i].name in Fold(rs).routers
    ensures Fold(rs).routers[rs[i].name] == RouterEntry(rs[i])
  {
    var init := rs[..|rs| - 1];
    StepWritesEntries(Fold(init), rs[|rs| - 1]);
    if i < |rs| - 1 {
      assert init[i] == rs[i];
      assert LastNamed(init, i);
      RoutersLastWriteWins(init, i);
    }
  }

  /** Last write wins in `http.services`: the entry under a service name
      carries the url of the last router in list order with that service
      name. */
  lemma {:induction false} ServicesLastWriteWins(rs: seq<Router>, i: int)
    requires LastServed(rs, i)
    ensures rs[i].serviceName in Fold(rs).services
    ensures Fold(rs).services[rs[i].serviceName] == ServiceEntry(rs[i])
  {
    var init := rs[..|rs| - 1];
    StepWritesEntries(Fold(init), rs[|rs| - 1]);
    if i < |rs| - 1 {
      assert init[i] == rs[i];
      assert LastServed(init, i);
      ServicesLastWriteWins(init, i);
    }
  }

  /** Every router entry is the complete entry of some stored router with
      that name. */
  lemma {:induction false} RouterEntryOrigin(rs: seq<Router>, name: string)
    requires name in Fold(rs).routers
    ensures exists i :: 0 <= i < |rs| && rs[i].name == name && Fold(rs).routers[name] == RouterEntry(rs[i])
  {
    var init := rs[..|rs| - 1];
    var last := rs[|rs| - 1];
    StepWritesEntries(Fold(init), last);
    if last.name != name {
      RouterEntryOrigin(init, name);
      var i :| 0 <= i < |init| && init[i].name == name && Fold(init).routers[name] == RouterEntry(init[i]);
      assert rs[i] == init[i];
    }
  }

  /** No dangling references: in the exported document, the service every
      router entry names is a key of `http.services`. */
  lemma NoDanglingServices(rs: seq<Router>)
    ensures var http := DynamicConfig(rs).entries["http"].entries;
            forall name :: name in http["routers"].entries ==>
              && http["routers"].entries[name].Dict?
              && "service" in http["routers"].entries[name].entries
              && http["routers"].entries[name].entries["service"].Str?
              && http["routers"].entries[name].entries["service"].s in http["services"].entries
  {
    var sections := Fold(rs);
    SectionKeys(rs);
    forall name | name in sections.routers
      ensures sections.routers[name].Dict?
      ensures "service" in sections.routers[name].entries
      ensures sections.routers[name].entries["service"].Str?
      ensures sections.routers[name].entries["service"].s in sections.services
    {
      RouterEntryOrigin(rs, name);
      var i :| 0 <= i < |rs| && rs[i].name == name && sections.routers[name] == RouterEntry(rs[i]);
    }
  }

  /** The end-to-end example: one TLS router "blog" projects to its rule,
      service, resolver and backend url. */
  lemma BlogExample()
    ensures var blog := Router("b1", "blog", "blog.example.com", "blog-svc", "http://127.0.0.1:9000", "websecure", true);
            var http := DynamicConfig([blog]).entries["http"].entries;
            && http["routers"].entries["blog"].entries["rule"] == Str("Host(`blog.example.com`)")
            && http["routers"].entries["blog"].entries["service"] == Str("blog-svc")
            && http["routers"].entries["blog"].entries["tls"].entries["certResolver"] == Str("letsencrypt")
            && http["services"].entries["blog-svc"].entries["loadBalancer"].entries["servers"].items[0].entries["url"]
               == Str("http://127.0.0.1:9000")
  {
    var blog := Router("b1", "blog", "blog.example.com", "blog-svc", "http://127.0.0.1:9000", "websecure", true);
    assert LastNamed([blog], 0) && LastServed([blog], 0);
    RoutersLastWriteWins([blog], 0);
    ServicesLastWriteWins([blog], 0);
    var http := DynamicConfig([blog]).entries["http"].entries;
    assert http["routers"].entries["blog"] == RouterEntry(blog);
    assert http["services"].entries["blog-svc"] == ServiceEntry(blog);
    assert "Host(`" + blog.domain + "`)" == "Host(`blog.example.com`)";
  }
}
