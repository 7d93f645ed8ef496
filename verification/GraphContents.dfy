/** What the nodes and edges of the built graph are, part by part, and which node an id keeps. */
module GraphContents {
  import opened Json
  import opened Text
  import opened Names
  import opened CatalogGraph
  import opened GraphLaws

  // ---- the first node under an id ----

  /** A namespace's own node. */
  predicate IsNamespace(n: Node, w: string, namespace: seq<string>) {
    var path := Join(namespace, ".");
    && n.id == "lakecat:namespace:" + w + ":" + path && n.kind == "Namespace"
    && n.properties == Obj(map[Warehouse := Str(w), Namespace := Str(path)])
  }

  predicate IsTable(n: Node, t: Table) {
    n.id == t.stableId && n.kind == "IcebergTable" && n.properties == t.properties
  }

  /** The table's policy, under its own id or, without one, under that of the unknown policy. */
  predicate IsPolicy(n: Node, t: Table) {
    && n.id == (if t.policyId.Some? then t.policyId.value else "lakecat:policy:unknown")
    && n.kind == "ODRLPolicy" && n.properties == Obj(map[Other("target") := Str(t.stableId)])
  }

  predicate IsView(n: Node, v: View) {
    n.id == v.stableId && n.kind == "View" && n.properties == v.properties
  }

  /** The nodes of the catalog and the tenant, in the order they are inserted in. */
  ghost predicate SpineListed(list: seq<Node>, w: WarehouseName, tenant: Tenant) {
    list == [Node("lakecat:catalog", "Catalog", Obj(map[Name := Str("LakeCat")])),
             Node("lakecat:server:" + tenant.serverId, "Server", tenant.serverProperties),
             Node("lakecat:project:" + tenant.projectId, "Project", tenant.projectProperties),
             Node("lakecat:warehouse:" + w, "Warehouse", tenant.warehouseProperties)]
  }

  /** Three nodes to a table, in order: its namespace, itself, its policy. */
  ghost predicate TablesListed(list: seq<Node>, tables: seq<Table>) {
    && |list| == 3 * |tables|
    && forall i :: 0 <= i < |tables| ==>
         && IsNamespace(list[3 * i], tables[i].warehouse, tables[i].namespace)
         && IsTable(list[3 * i + 1], tables[i]) && IsPolicy(list[3 * i + 2], tables[i])
  }

  /** Two nodes to a view, in order: its namespace and itself. */
  ghost predicate ViewsListed(list: seq<Node>, views: seq<View>) {
    && |list| == 2 * |views|
    && forall i :: 0 <= i < |views| ==>
         IsNamespace(list[2 * i], views[i].warehouse, views[i].namespace) && IsView(list[2 * i + 1], views[i])
  }

  /** Each id has the first node listed under it. */
  ghost predicate FirstOf(nodes: map<string, Node>, list: seq<Node>) {
    && (forall id :: id in nodes <==> exists i :: 0 <= i < |list| && list[i].id == id)
    && (forall i :: 0 <= i < |list| && (forall j :: 0 <= j < i ==> list[j].id != list[i].id) ==>
          nodes[list[i].id] == list[i])
  }

  lemma OneMoreNode(nodes: map<string, Node>, list: seq<Node>, n: Node)
    requires FirstOf(nodes, list)
    ensures FirstOf(if n.id in nodes then nodes else nodes[n.id := n], list + [n])
  {
    var after, longer := if n.id in nodes then nodes else nodes[n.id := n], list + [n];
    forall id ensures id in after <==> exists i :: 0 <= i < |longer| && longer[i].id == id {
      if id in nodes {
        var i :| 0 <= i < |list| && list[i].id == id;
        assert longer[i].id == id;
      }
      assert longer[|list|] == n;
    }
    forall i | 0 <= i < |longer| && (forall j :: 0 <= j < i ==> longer[j].id != longer[i].id)
      ensures after[longer[i].id] == longer[i]
    {
      if i < |list| {
        assert forall j :: 0 <= j < i ==> longer[j] == list[j];
      } else {
        assert forall j :: 0 <= j < |list| ==> longer[j] == list[j];
      }
    }
  }

  lemma SpineFirst(w: WarehouseName, tenant: Tenant) returns (list: seq<Node>)
    ensures SpineListed(list, w, tenant) && FirstOf(Spine(w, tenant).nodes, list)
  {
    var a, b, c, d := CatalogNode(), ServerNode(tenant), ProjectNode(tenant), WarehouseNode(w, tenant);
    list := [a, b, c, d];
    assert list == [] + [a] + [b] + [c] + [d];
    hide FirstOf;
    assert FirstOf(Graph(map[], {}).nodes, []) by { NothingFirst(); }
    OneMoreNode(Graph(map[], {}).nodes, [], a);
    var g := AddNode(Graph(map[], {}), a);
    OneMoreNode(g.nodes, [] + [a], b);
    OneMoreNode(AddNode(g, b).nodes, [] + [a] + [b], c);
    OneMoreNode(AddNode(AddNode(g, b), c).nodes, [] + [a] + [b] + [c], d);
  }

  lemma NothingFirst()
    ensures FirstOf(map[], [])
  {
  }

  lemma TableFirst(g: Graph, list: seq<Node>, t: Table) returns (more: seq<Node>)
    requires FirstOf(g.nodes, list)
    ensures |more| == 3 && IsNamespace(more[0], t.warehouse, t.namespace) && IsTable(more[1], t)
    ensures IsPolicy(more[2], t) && FirstOf(AddTable(g, t).nodes, list + more)
  {
    var a, b, c := NamespaceNode(t.warehouse, Path(t.namespace)), TableNode(t), PolicyNode(t);
    more := [a, b, c];
    assert list + more == list + [a] + [b] + [c];
    hide FirstOf, Join;
    OneMoreNode(g.nodes, list, a);
    var g0 := AddNamespace(g, t.warehouse, Path(t.namespace));
    OneMoreNode(g0.nodes, list + [a], b);
    OneMoreNode(AddNode(g0, b).nodes, list + [a] + [b], c);
  }

  lemma ViewFirst(g: Graph, list: seq<Node>, v: View) returns (more: seq<Node>)
    requires FirstOf(g.nodes, list)
    ensures |more| == 2 && IsNamespace(more[0], v.warehouse, v.namespace) && IsView(more[1], v)
    ensures FirstOf(AddView(g, v).nodes, list + more)
  {
    var a, b := NamespaceNode(v.warehouse, Path(v.namespace)), ViewNode(v);
    more := [a, b];
    assert list + more == list + [a] + [b];
    hide FirstOf, Join;
    OneMoreNode(g.nodes, list, a);
    OneMoreNode(AddNamespace(g, v.warehouse, Path(v.namespace)).nodes, list + [a], b);
  }

  lemma {:induction false} TablesFirst(g: Graph, list: seq<Node>, tables: seq<Table>) returns (more: seq<Node>)
    requires FirstOf(g.nodes, list)
    ensures TablesListed(more, tables) && FirstOf(AddTables(g, tables).nodes, list + more)
    decreases |tables|
  {
    hide FirstOf, IsNamespace, IsTable, IsPolicy, AddTable;
    if tables == [] {
      more := [];
      assert list + more == list;
    } else {
      var init := tables[..|tables| - 1];
      var some := TablesFirst(g, list, init);
      var last := TableFirst(AddTables(g, init), list + some, tables[|tables| - 1]);
      more := some + last;
      assert list + more == list + some + last;
    }
  }

  lemma {:induction false} ViewsFirst(g: Graph, list: seq<Node>, views: seq<View>) returns (more: seq<Node>)
    requires FirstOf(g.nodes, list)
    ensures ViewsListed(more, views) && FirstOf(AddViews(g, views).nodes, list + more)
    decreases |views|
  {
    hide FirstOf, IsNamespace, IsView, AddView;
    if views == [] {
      more := [];
      assert list + more == list;
    } else {
      var init := views[..|views| - 1];
      var some := ViewsFirst(g, list, init);
      var last := ViewFirst(AddViews(g, init), list + some, views[|views| - 1]);
      more := some + last;
      assert list + more == list + some + last;
    }
  }

  /** For every input, also one whose ids clash: the graph has exactly the ids of the spine, then of the tables with
      their namespaces and policies, then of the views with their namespaces, and under an id the first node in that
      order. */
  lemma FirstNodeIsKept(w: WarehouseName, tables: seq<Table>, views: seq<View>, tenant: Tenant)
    ensures exists a, b, c :: SpineListed(a, w, tenant) && TablesListed(b, tables) && ViewsListed(c, views)
                              && FirstOf(BuiltGraph(w, tables, views, tenant).nodes, a + b + c)
  {
    hide FirstOf, SpineListed, TablesListed, ViewsListed, Spine;
    var a := SpineFirst(w, tenant);
    var b := TablesFirst(Spine(w, tenant), a, tables);
    var c := ViewsFirst(AddTables(Spine(w, tenant), tables), a + b, views);
  }

  // ---- the edges ----

  /** The edges into a namespace: from the catalog, and from the warehouse if its name is valid. */
  predicate LeadsToNamespace(e: Edge, w: string, namespace: seq<string>) {
    && e.target == "lakecat:namespace:" + w + ":" + Join(namespace, ".") && e.kind == "HAS_NAMESPACE"
    && (e.source == "lakecat:catalog" || (e.source == "lakecat:warehouse:" + w && ValidName(w)))
  }

  predicate EdgeOfTable(e: Edge, t: Table) {
    || LeadsToNamespace(e, t.warehouse, t.namespace)
    || e == Edge("lakecat:namespace:" + t.warehouse + ":" + Join(t.namespace, "."), t.stableId, "CONTAINS_TABLE")
    || e == Edge(t.stableId, if t.policyId.Some? then t.policyId.value else "lakecat:policy:unknown", "GOVERNED_BY")
  }

  predicate EdgeOfView(e: Edge, v: View) {
    || LeadsToNamespace(e, v.warehouse, v.namespace)
    || e == Edge("lakecat:namespace:" + v.warehouse + ":" + Join(v.namespace, "."), v.stableId, "CONTAINS_VIEW")
  }

  predicate EdgeOfSpine(e: Edge, w: WarehouseName, tenant: Tenant) {
    || e == Edge("lakecat:catalog", "lakecat:server:" + tenant.serverId, "HAS_SERVER")
    || e == Edge("lakecat:server:" + tenant.serverId, "lakecat:project:" + tenant.projectId, "HAS_PROJECT")
    || e == Edge("lakecat:project:" + tenant.projectId, "lakecat:warehouse:" + w, "HAS_WAREHOUSE")
  }

  lemma SpineSpelled(e: Edge, w: WarehouseName, tenant: Tenant)
    ensures e in SpineEdges(w, tenant) <==> EdgeOfSpine(e, w, tenant)
  {
  }

  lemma TableSpelled(e: Edge, t: Table)
    ensures e in TableEdges(t) <==> EdgeOfTable(e, t)
  {
    hide Join, ValidName;
  }

  lemma ViewSpelled(e: Edge, v: View)
    ensures e in ViewEdges(v) <==> EdgeOfView(e, v)
  {
    hide Join, ValidName;
  }

  /** Without a clash of ids the edges are exactly these. */
  lemma EdgesExactly(w: WarehouseName, tables: seq<Table>, views: seq<View>, tenant: Tenant, e: Edge)
    requires Unambiguous(AllNodes(w, tables, views, tenant))
    ensures e in BuiltGraph(w, tables, views, tenant).edges <==>
            || EdgeOfSpine(e, w, tenant)
            || (exists t :: t in tables && EdgeOfTable(e, t)) || (exists v :: v in views && EdgeOfView(e, v))
  {
    hide Unambiguous, Represents, BuiltGraph, SpineEdges, TableEdges, ViewEdges, AllNodes;
    hide EdgeOfSpine, EdgeOfTable, EdgeOfView;
    GraphIsItsSets(w, tables, views, tenant);
    SpineSpelled(e, w, tenant);
    forall t: Table ensures e in TableEdges(t) <==> EdgeOfTable(e, t) { TableSpelled(e, t); }
    forall v: View ensures e in ViewEdges(v) <==> EdgeOfView(e, v) { ViewSpelled(e, v); }
  }
}
