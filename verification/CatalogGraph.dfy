/** The catalog graph handed to QueryGraph: how it is built. */
module CatalogGraph {
  import opened Json
  import opened Names

  type WarehouseName = s: string | ValidName(s) witness "default"

  datatype Node = Node(id: string, kind: string, properties: Json)
  datatype Edge = Edge(source: string, target: string, kind: string)

  /** A table as it is projected: `policyId` is the `@id` of its ODRL document, where there is one. */
  datatype Table = Table(
    warehouse: WarehouseName, namespace: seq<string>, name: string, stableId: string,
    policyId: Option<string>, properties: Json)

  /** A view names its warehouse by an unchecked string. */
  datatype View = View(
    warehouse: string, namespace: seq<string>, name: string, stableId: string, properties: Json)

  datatype Tenant = Tenant(
    serverId: string, projectId: string,
    serverProperties: Json, projectProperties: Json, warehouseProperties: Json)

  datatype Graph = Graph(nodes: map<string, Node>, edges: set<Edge>)

  const CATALOG := "lakecat:catalog"

  function ServerId(tenant: Tenant): string {
    "lakecat:server:" + tenant.serverId
  }

  function ProjectId(tenant: Tenant): string {
    "lakecat:project:" + tenant.projectId
  }

  function WarehouseId(w: string): string {
    "lakecat:warehouse:" + w
  }

  function NamespaceId(w: string, path: string): string {
    "lakecat:namespace:" + w + ":" + path
  }

  function PolicyId(t: Table): string {
    if t.policyId.Some? then t.policyId.value else "lakecat:policy:unknown"
  }

  // ---- nodes and edges of each part ----

  function CatalogNode(): Node {
    Node(CATALOG, "Catalog", Obj(map[Name := Str("LakeCat")]))
  }

  function ServerNode(tenant: Tenant): Node {
    Node(ServerId(tenant), "Server", tenant.serverProperties)
  }

  function ProjectNode(tenant: Tenant): Node {
    Node(ProjectId(tenant), "Project", tenant.projectProperties)
  }

  function WarehouseNode(w: WarehouseName, tenant: Tenant): Node {
    Node(WarehouseId(w), "Warehouse", tenant.warehouseProperties)
  }

  function NamespaceNode(w: string, path: string): Node {
    Node(NamespaceId(w, path), "Namespace", Obj(map[Warehouse := Str(w), Namespace := Str(path)]))
  }

  function TableNode(t: Table): Node {
    Node(t.stableId, "IcebergTable", t.properties)
  }

  function PolicyNode(t: Table): Node {
    Node(PolicyId(t), "ODRLPolicy", Obj(map[Other("target") := Str(t.stableId)]))
  }

  function ViewNode(v: View): Node {
    Node(v.stableId, "View", v.properties)
  }

  function SpineEdges(w: WarehouseName, tenant: Tenant): set<Edge> {
    {Edge(CATALOG, ServerId(tenant), "HAS_SERVER"),
     Edge(ServerId(tenant), ProjectId(tenant), "HAS_PROJECT"),
     Edge(ProjectId(tenant), WarehouseId(w), "HAS_WAREHOUSE")}
  }

  function NamespaceEdges(w: string, path: string): set<Edge> {
    {Edge(CATALOG, NamespaceId(w, path), "HAS_NAMESPACE")}
    + (if ValidName(w) then {Edge(WarehouseId(w), NamespaceId(w, path), "HAS_NAMESPACE")} else {})
  }

  function TableEdge(t: Table): Edge {
    Edge(NamespaceId(t.warehouse, Path(t.namespace)), t.stableId, "CONTAINS_TABLE")
  }

  function PolicyEdge(t: Table): Edge {
    Edge(t.stableId, PolicyId(t), "GOVERNED_BY")
  }

  function ViewEdge(v: View): Edge {
    Edge(NamespaceId(v.warehouse, Path(v.namespace)), v.stableId, "CONTAINS_VIEW")
  }

  // ---- the builder ----

  function AddNode(g: Graph, n: Node): Graph {
    if n.id in g.nodes then g else g.(nodes := g.nodes[n.id := n])
  }

  /** A namespace comes with its edges the first time its id is met. */
  function AddNamespace(g: Graph, w: string, path: string): Graph {
    if NamespaceId(w, path) in g.nodes then g
    else Graph(g.nodes[NamespaceId(w, path) := NamespaceNode(w, path)], g.edges + NamespaceEdges(w, path))
  }

  function AddEdges(g: Graph, edges: set<Edge>): Graph {
    g.(edges := g.edges + edges)
  }

  function Spine(w: WarehouseName, tenant: Tenant): Graph {
    var g := AddNode(Graph(map[], {}), CatalogNode());
    AddEdges(AddNode(AddNode(AddNode(g, ServerNode(tenant)), ProjectNode(tenant)), WarehouseNode(w, tenant)),
             SpineEdges(w, tenant))
  }

  function AddTable(g: Graph, t: Table): Graph {
    AddEdges(AddNode(AddNode(AddNamespace(g, t.warehouse, Path(t.namespace)), TableNode(t)), PolicyNode(t)),
             {TableEdge(t), PolicyEdge(t)})
  }

  function AddView(g: Graph, v: View): Graph {
    AddEdges(AddNode(AddNamespace(g, v.warehouse, Path(v.namespace)), ViewNode(v)), {ViewEdge(v)})
  }

  function AddTables(g: Graph, tables: seq<Table>): Graph {
    if tables == [] then g else AddTable(AddTables(g, tables[..|tables| - 1]), tables[|tables| - 1])
  }

  function AddViews(g: Graph, views: seq<View>): Graph {
    if views == [] then g else AddView(AddViews(g, views[..|views| - 1]), views[|views| - 1])
  }

  function BuiltGraph(w: WarehouseName, tables: seq<Table>, views: seq<View>, tenant: Tenant): Graph {
    AddViews(AddTables(Spine(w, tenant), tables), views)
  }

  class GraphBuilder {
    var nodes: map<string, Node>
    var edges: set<Edge>

    function Value(): Graph
      reads this
    {
      Graph(nodes, edges)
    }

    constructor ()
      ensures Value() == Graph(map[], {})
    {
      nodes, edges := map[], {};
    }

    method InsertNode(n: Node)
      modifies this`nodes
      ensures Value() == AddNode(old(Value()), n)
    {
      if n.id !in nodes {
        nodes := nodes[n.id := n];
      }
    }

    method InsertNamespaceNode(w: string, path: string) returns (id: string)
      modifies this
      ensures id == NamespaceId(w, path) && Value() == AddNamespace(old(Value()), w, path)
    {
      id := NamespaceId(w, path);
      if id !in nodes {
        nodes := nodes[id := NamespaceNode(w, path)];
        edges := edges + {Edge(CATALOG, id, "HAS_NAMESPACE")};
        if ValidName(w) {
          edges := edges + {Edge(WarehouseId(w), id, "HAS_NAMESPACE")};
        }
      }
    }

    method InsertTenantSpine(w: WarehouseName, tenant: Tenant)
      modifies this
      ensures Value() == AddEdges(AddNode(AddNode(AddNode(old(Value()), ServerNode(tenant)), ProjectNode(tenant)),
                                          WarehouseNode(w, tenant)),
                                  SpineEdges(w, tenant))
    {
      hide AddNode, ServerId, ProjectId, WarehouseId;
      InsertNode(ServerNode(tenant));
      InsertNode(ProjectNode(tenant));
      InsertNode(WarehouseNode(w, tenant));
      edges := edges + {Edge(CATALOG, ServerId(tenant), "HAS_SERVER")};
      edges := edges + {Edge(ServerId(tenant), ProjectId(tenant), "HAS_PROJECT")};
      edges := edges + {Edge(ProjectId(tenant), WarehouseId(w), "HAS_WAREHOUSE")};
    }

    method InsertTable(t: Table)
      modifies this
      ensures Value() == AddTable(old(Value()), t)
    {
      hide AddNode, AddNamespace, NamespaceId, PolicyId, TableNode, PolicyNode, Path;
      var namespaceId := InsertNamespaceNode(t.warehouse, Path(t.namespace));
      InsertNode(TableNode(t));
      InsertNode(PolicyNode(t));
      edges := edges + {Edge(namespaceId, t.stableId, "CONTAINS_TABLE")};
      edges := edges + {Edge(t.stableId, PolicyId(t), "GOVERNED_BY")};
    }

    method InsertView(v: View)
      modifies this
      ensures Value() == AddView(old(Value()), v)
    {
      hide AddNode, AddNamespace, NamespaceId, ViewNode, Path;
      var namespaceId := InsertNamespaceNode(v.warehouse, Path(v.namespace));
      InsertNode(ViewNode(v));
      edges := edges + {Edge(namespaceId, v.stableId, "CONTAINS_VIEW")};
    }
  }

  method BuildGraph(w: WarehouseName, tables: seq<Table>, views: seq<View>, tenant: Tenant) returns (g: Graph)
    ensures g == BuiltGraph(w, tables, views, tenant)
  {
    hide AddNode, AddTable, AddView;
    var builder := new GraphBuilder();
    builder.InsertNode(CatalogNode());
    builder.InsertTenantSpine(w, tenant);
    assert builder.Value() == Spine(w, tenant);
    hide Spine;
    assert tables[..0] == [] && views[..0] == [];
    for i := 0 to |tables|
      invariant builder.Value() == AddTables(Spine(w, tenant), tables[..i])
    {
      assert tables[..i + 1][..i] == tables[..i];
      builder.InsertTable(tables[i]);
    }
    assert tables[..|tables|] == tables;
    ghost var withTables := AddTables(Spine(w, tenant), tables);
    for i := 0 to |views|
      invariant builder.Value() == AddViews(withTables, views[..i])
    {
      assert views[..i + 1][..i] == views[..i];
      builder.InsertView(views[i]);
    }
    assert views[..|views|] == views;
    g := Graph(builder.nodes, builder.edges);
  }
}
