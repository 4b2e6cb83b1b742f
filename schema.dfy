/** Schema introspection of the graph store and its rendering into the text
    that is given to the query translator (`get_schema_dict` and
    `get_schema_baml`). */
module Schema {
  import opened Text

  /** One row of `CALL TABLE_INFO('<table>') RETURN *`: column 0 is the
      property id, column 1 its name, column 2 its type; the remaining
      columns are not read. */
  datatype TableInfoRow = TableInfoRow(propertyId: int, name: string, dataType: string, others: seq<string>)

  /** A relationship table as the catalog lists it. */
  datatype RelTable = RelTable(name: string, src: string, dst: string)

  /** What the store's catalog answers: node table names and relationship
      tables in catalog order, and the `TABLE_INFO` rows of each table in
      cursor order. */
  datatype Catalog = Catalog(
    nodeTables: seq<string>,
    relTables: seq<RelTable>,
    tableInfo: string -> seq<TableInfoRow>)

  datatype Property = Property(name: string, dataType: string)
  /** `name` is the dictionary's `"label"` key (`label` is a Dafny keyword). */
  datatype NodeSchema = NodeSchema(name: string, properties: seq<Property>)
  datatype EdgeSchema = EdgeSchema(name: string, src: string, dst: string, properties: seq<Property>)

  /** The `{"nodes": [...], "edges": [...]}` dictionary. */
  datatype SchemaDict = SchemaDict(nodes: seq<NodeSchema>, edges: seq<EdgeSchema>)

  /** `props` holds one property per `TABLE_INFO` row, in row order, taken
      from columns 1 and 2. */
  predicate PropertiesOf(rows: seq<TableInfoRow>, props: seq<Property>) {
    |props| == |rows| &&
    forall k :: 0 <= k < |rows| ==> props[k] == Property(rows[k].name, rows[k].dataType)
  }

  /** `schema` lists every node table and every relationship table of the
      catalog, in catalog order, none dropped, each with its own
      properties. */
  predicate Describes(schema: SchemaDict, catalog: Catalog) {
    && |schema.nodes| == |catalog.nodeTables|
    && (forall i :: 0 <= i < |schema.nodes| ==>
          schema.nodes[i].name == catalog.nodeTables[i] &&
          PropertiesOf(catalog.tableInfo(catalog.nodeTables[i]), schema.nodes[i].properties))
    && |schema.edges| == |catalog.relTables|
    && (forall j :: 0 <= j < |schema.edges| ==>
          var rel := catalog.relTables[j];
          schema.edges[j].name == rel.name && schema.edges[j].src == rel.src &&
          schema.edges[j].dst == rel.dst &&
          PropertiesOf(catalog.tableInfo(rel.name), schema.edges[j].properties))
  }

  /** A catalog is described by one schema only. */
  lemma DescribesUnique(s1: SchemaDict, s2: SchemaDict, catalog: Catalog)
    requires Describes(s1, catalog) && Describes(s2, catalog)
    ensures s1 == s2
  {
    forall i | 0 <= i < |s1.nodes| ensures s1.nodes[i] == s2.nodes[i] {
      assert s1.nodes[i].properties == s2.nodes[i].properties;
    }
    forall j | 0 <= j < |s1.edges| ensures s1.edges[j] == s2.edges[j] {
      assert s1.edges[j].properties == s2.edges[j].properties;
    }
  }

  /** The properties of a table, one per `TABLE_INFO` row. */
  function TableProperties(rows: seq<TableInfoRow>): (props: seq<Property>)
    ensures PropertiesOf(rows, props)
  {
    seq(|rows|, k requires 0 <= k < |rows| => Property(rows[k].name, rows[k].dataType))
  }

  /** The dictionary the catalog describes. */
  function CatalogSchema(catalog: Catalog): (s: SchemaDict)
    ensures Describes(s, catalog)
  {
    var nodes := catalog.nodeTables;
    var rels := catalog.relTables;
    SchemaDict(
      seq(|nodes|, i requires 0 <= i < |nodes| => NodeSchema(nodes[i], TableProperties(catalog.tableInfo(nodes[i])))),
      seq(|rels|, j requires 0 <= j < |rels| =>
        EdgeSchema(rels[j].name, rels[j].src, rels[j].dst, TableProperties(catalog.tableInfo(rels[j].name)))))
  }

  /** The `while has_next(): append(...)` loop over one `TABLE_INFO` cursor. */
  method ReadProperties(rows: seq<TableInfoRow>) returns (props: seq<Property>)
    ensures PropertiesOf(rows, props)
  {
    props := [];
    var k := 0;
    while k < |rows|
      invariant 0 <= k <= |rows|
      invariant PropertiesOf(rows[..k], props)
    {
      var row := rows[k];
      props := props + [Property(row.name, row.dataType)];
      k := k + 1;
    }
  }

  /** `get_schema_dict`. */
  method GetSchemaDict(catalog: Catalog) returns (schema: SchemaDict)
    ensures Describes(schema, catalog)
  {
    var nodes: seq<NodeSchema> := [];
    for i := 0 to |catalog.nodeTables|
      invariant |nodes| == i
      invariant forall i' :: 0 <= i' < i ==>
        nodes[i'].name == catalog.nodeTables[i'] &&
        PropertiesOf(catalog.tableInfo(catalog.nodeTables[i']), nodes[i'].properties)
    {
      var node := catalog.nodeTables[i];
      var props := ReadProperties(catalog.tableInfo(node));
      nodes := nodes + [NodeSchema(node, props)];
    }
    var edges: seq<EdgeSchema> := [];
    for j := 0 to |catalog.relTables|
      invariant |edges| == j
      invariant forall j' :: 0 <= j' < j ==>
        var rel := catalog.relTables[j'];
        edges[j'].name == rel.name && edges[j'].src == rel.src && edges[j'].dst == rel.dst &&
        PropertiesOf(catalog.tableInfo(rel.name), edges[j'].properties)
    {
      var rel := catalog.relTables[j];
      var props := ReadProperties(catalog.tableInfo(rel.name));
      edges := edges + [EdgeSchema(rel.name, rel.src, rel.dst, props)];
    }
    schema := SchemaDict(nodes, edges);
  }

  // ---------------------------------------------------------------------
  // The rendered text, line by line.

  /** The first item appended; it holds two lines. */
  const DirectionsHeader := "ALWAYS RESPECT THE EDGE DIRECTIONS:\n---"
  const Separator := "---"
  const NodesHeading := "\nNode properties:"
  const EdgesHeading := "\nEdge properties:"

  function DirectionLine(e: EdgeSchema): string {
    "(:" + e.src + ") -[:" + e.name + "]-> (:" + e.dst + ")"
  }

  function DirectionLines(edges: seq<EdgeSchema>): seq<string> {
    seq(|edges|, j requires 0 <= j < |edges| => DirectionLine(edges[j]))
  }

  /** A property line: the name unchanged, the type lower-cased. */
  function PropertyLine(p: Property): string {
    "    - " + p.name + ": " + Lower(p.dataType)
  }

  function PropertyLines(props: seq<Property>): seq<string> {
    seq(|props|, k requires 0 <= k < |props| => PropertyLine(props[k]))
  }

  /** Node labels are indented by two spaces. */
  function NodeBlock(n: NodeSchema): seq<string> {
    ["  - " + n.name] + PropertyLines(n.properties)
  }

  /** Edge labels are not indented, and an edge without properties gets no
      block at all. */
  function EdgeBlock(e: EdgeSchema): seq<string> {
    if e.properties != [] then ["- " + e.name] + PropertyLines(e.properties) else []
  }

  function NodeSection(nodes: seq<NodeSchema>): seq<string> {
    if nodes == [] then [] else NodeSection(nodes[..|nodes| - 1]) + NodeBlock(nodes[|nodes| - 1])
  }

  function EdgeSection(edges: seq<EdgeSchema>): seq<string> {
    if edges == [] then [] else EdgeSection(edges[..|edges| - 1]) + EdgeBlock(edges[|edges| - 1])
  }

  /** The `lines` list `get_schema_baml` builds. */
  function SchemaLines(s: SchemaDict): seq<string> {
    [DirectionsHeader] + DirectionLines(s.edges) + [Separator, NodesHeading] +
    NodeSection(s.nodes) + [EdgesHeading] + EdgeSection(s.edges)
  }

  /** `"\n".join(lines)`. */
  function SchemaText(s: SchemaDict): string {
    Joined(SchemaLines(s))
  }

  /** Renders a schema dictionary (the body of `get_schema_baml` after the
      introspection). */
  method RenderSchema(schema: SchemaDict) returns (text: string)
    ensures text == SchemaText(schema)
  {
    var lines := [DirectionsHeader];
    for j := 0 to |schema.edges|
      invariant lines == [DirectionsHeader] + DirectionLines(schema.edges[..j])
    {
      var edge := schema.edges[j];
      lines := lines + [DirectionLine(edge)];
    }
    assert schema.edges[..|schema.edges|] == schema.edges;
    lines := lines + [Separator, NodesHeading];
    lines := AppendNodeSection(lines, schema.nodes);
    lines := lines + [EdgesHeading];
    lines := AppendEdgeSection(lines, schema.edges);
    assert lines == SchemaLines(schema);
    text := JoinLines(lines);
  }

  /** The inner `for prop in ...properties` loop. */
  method AppendPropertyLines(lines: seq<string>, props: seq<Property>) returns (out: seq<string>)
    ensures out == lines + PropertyLines(props)
  {
    out := lines;
    for k := 0 to |props|
      invariant out == lines + PropertyLines(props[..k])
    {
      var prop := props[k];
      var ptype := Lower(prop.dataType);
      out := out + ["    - " + prop.name + ": " + ptype];
    }
    assert props[..|props|] == props;
  }

  /** The `for node in schema["nodes"]` loop. */
  method AppendNodeSection(lines: seq<string>, nodes: seq<NodeSchema>) returns (out: seq<string>)
    ensures out == lines + NodeSection(nodes)
  {
    out := lines;
    for i := 0 to |nodes|
      invariant out == lines + NodeSection(nodes[..i])
    {
      var node := nodes[i];
      out := out + ["  - " + node.name];
      out := AppendPropertyLines(out, node.properties);
      assert nodes[..i + 1][..i] == nodes[..i];
    }
    assert nodes[..|nodes|] == nodes;
  }

  /** The body of the `for edge in schema["edges"]` loop of the
      edge-properties section. */
  method AppendEdgeBlock(lines: seq<string>, edge: EdgeSchema) returns (out: seq<string>)
    ensures out == lines + EdgeBlock(edge)
  {
    out := lines;
    if edge.properties != [] {
      out := out + ["- " + edge.name];
      out := AppendPropertyLines(out, edge.properties);
    }
  }

  lemma EdgeSectionStep(edges: seq<EdgeSchema>, j: nat)
    requires j < |edges|
    ensures EdgeSection(edges[..j + 1]) == EdgeSection(edges[..j]) + EdgeBlock(edges[j])
  {
    assert edges[..j + 1][..j] == edges[..j];
  }

  /** The `for edge in schema["edges"]` loop of the edge-properties section. */
  method AppendEdgeSection(lines: seq<string>, edges: seq<EdgeSchema>) returns (out: seq<string>)
    ensures out == lines + EdgeSection(edges)
  {
    out := lines;
    for j := 0 to |edges|
      invariant out == lines + EdgeSection(edges[..j])
    {
      EdgeSectionStep(edges, j);
      AppendAssoc(lines, EdgeSection(edges[..j]), EdgeBlock(edges[j]));
      out := AppendEdgeBlock(out, edges[j]);
    }
    assert edges[..|edges|] == edges;
  }

  /** `"\n".join(lines)` as a loop. */
  method JoinLines(lines: seq<string>) returns (text: string)
    ensures text == Joined(lines)
  {
    if lines == [] {
      return "";
    }
    text := lines[0];
    var k := 1;
    while k < |lines|
      invariant 1 <= k <= |lines|
      invariant text + Prefixed(lines[k..]) == Joined(lines)
    {
      assert Prefixed(lines[k..]) == "\n" + lines[k] + Prefixed(lines[k + 1..]);
      text := text + "\n" + lines[k];
      k := k + 1;
    }
  }

  /** `get_schema_baml`: introspect, then render. */
  method GetSchemaBaml(catalog: Catalog) returns (text: string)
    ensures text == SchemaText(CatalogSchema(catalog))
  {
    var dict := GetSchemaDict(catalog);
    DescribesUnique(dict, CatalogSchema(catalog), catalog);
    text := RenderSchema(dict);
  }

  // ---------------------------------------------------------------------
  // Properties of the rendered text.

  /** The whole text, section by section: the header and its separator, one
      line per edge, the closing separator, a blank line, the node section, a
      blank line and the edge section, with no newline after the last line. */
  lemma SchemaTextLayout(s: SchemaDict)
    ensures SchemaText(s) ==
      "ALWAYS RESPECT THE EDGE DIRECTIONS:\n---" + (Prefixed(DirectionLines(s.edges)) +
      ("\n---\n\nNode properties:" + (Prefixed(NodeSection(s.nodes)) +
      ("\n\nEdge properties:" + Prefixed(EdgeSection(s.edges))))))
  {
    var d, x, ns, y, es := DirectionLines(s.edges), [Separator, NodesHeading], NodeSection(s.nodes),
                           [EdgesHeading], EdgeSection(s.edges);
    assert SchemaLines(s) == [DirectionsHeader] + (d + (x + (ns + (y + es))));
    JoinedFive(DirectionsHeader, d, x, ns, y, es);
    HeadingsText();
  }

  lemma HeadingsText()
    ensures Prefixed([Separator, NodesHeading]) == "\n---\n\nNode properties:"
    ensures Prefixed([EdgesHeading]) == "\n\nEdge properties:"
  {
    assert [Separator, NodesHeading][1..] == [NodesHeading];
    assert Prefixed([NodesHeading]) == "\n" + NodesHeading;
    assert Prefixed([EdgesHeading]) == "\n" + EdgesHeading;
  }

  /** With no edges the two separators are adjacent, and with no edge
      properties the text ends with the `Edge properties:` heading. */
  lemma NoEdgesText(s: SchemaDict)
    requires s.edges == []
    ensures SchemaText(s) ==
      "ALWAYS RESPECT THE EDGE DIRECTIONS:\n---\n---\n\nNode properties:" +
      Prefixed(NodeSection(s.nodes)) + "\n\nEdge properties:"
  {
    SchemaTextLayout(s);
    assert DirectionLines(s.edges) == [];
  }

  /** The text ends with its last line, with no newline after it; when no
      edge has properties, that line is the `Edge properties:` heading. */
  lemma SchemaTextEnd(s: SchemaDict)
    ensures var lines := SchemaLines(s); var last := lines[|lines| - 1];
      |SchemaText(s)| >= |last| && SchemaText(s)[|SchemaText(s)| - |last|..] == last
    ensures EdgeSection(s.edges) == [] ==> SchemaLines(s)[|SchemaLines(s)| - 1] == EdgesHeading
  {
    JoinedEndsWithLast(SchemaLines(s));
  }

  /** Entries 1 to `|edges|` of the `lines` list are the direction section:
      exactly one `(:src) -[:name]-> (:dst)` line per edge, in edge order.
      In the text they are lines 2 to `|edges| + 1`, counting from 0, since
      the header entry holds two lines. */
  lemma DirectionSectionLines(s: SchemaDict)
    ensures |SchemaLines(s)| > |s.edges|
    ensures SchemaLines(s)[1..|s.edges| + 1] == DirectionLines(s.edges)
    ensures forall j :: 0 <= j < |s.edges| ==> SchemaLines(s)[j + 1] == DirectionLine(s.edges[j])
  {
    var d := DirectionLines(s.edges);
    var rest := [Separator, NodesHeading] + NodeSection(s.nodes) + [EdgesHeading] + EdgeSection(s.edges);
    assert SchemaLines(s) == [DirectionsHeader] + d + rest;
    assert SchemaLines(s)[1..|s.edges| + 1] == d;
  }

  /** The direction lines read each edge's name, source and destination
      only: edges that differ in their properties alone give the same
      lines. */
  lemma DirectionLinesIgnoreProperties(es1: seq<EdgeSchema>, es2: seq<EdgeSchema>)
    requires |es1| == |es2|
    requires forall j :: 0 <= j < |es1| ==>
      es1[j].name == es2[j].name && es1[j].src == es2[j].src && es1[j].dst == es2[j].dst
    ensures DirectionLines(es1) == DirectionLines(es2)
  {
    forall j | 0 <= j < |es1| ensures DirectionLines(es1)[j] == DirectionLines(es2)[j] {
      assert DirectionLine(es1[j]) == DirectionLine(es2[j]);
    }
  }

  /** Property lines start with spaces, so none is an edge label line. */
  lemma NotAPropertyLine(props: seq<Property>, name: string)
    ensures ("- " + name) !in PropertyLines(props)
  {
    forall k | 0 <= k < |props| ensures PropertyLines(props)[k] != "- " + name {
      assert PropertyLines(props)[k][0] == ' ';
    }
  }

  /** An edge gets a `- label` line under `Edge properties:` exactly when some
      edge with that label has at least one property. */
  lemma {:induction false} EdgeListedIff(edges: seq<EdgeSchema>, name: string)
    ensures ("- " + name) in EdgeSection(edges) <==>
            exists j :: 0 <= j < |edges| && edges[j].name == name && edges[j].properties != []
    decreases |edges|
  {
    if edges != [] {
      var init, last := edges[..|edges| - 1], edges[|edges| - 1];
      EdgeListedIff(init, name);
      var x := "- " + name;
      NotAPropertyLine(last.properties, name);
      if last.properties != [] && x == "- " + last.name {
        assert name == x[2..] == last.name;
      }
      if exists j :: 0 <= j < |edges| && edges[j].name == name && edges[j].properties != [] {
        var j :| 0 <= j < |edges| && edges[j].name == name && edges[j].properties != [];
        if j < |edges| - 1 {
          assert init[j] == edges[j];
        }
      }
      if exists j :: 0 <= j < |init| && init[j].name == name && init[j].properties != [] {
        var j :| 0 <= j < |init| && init[j].name == name && init[j].properties != [];
        assert edges[j] == init[j];
      }
    }
  }

  lemma {:induction false} NodeSectionAppend(a: seq<NodeSchema>, b: seq<NodeSchema>)
    ensures NodeSection(a + b) == NodeSection(a) + NodeSection(b)
    decreases |b|
  {
    if b == [] {
      assert a + b == a;
    } else {
      var init, last := b[..|b| - 1], b[|b| - 1];
      NodeSectionAppend(a, init);
      var ab := a + b;
      assert ab[..|ab| - 1] == a + init;
      assert ab[|ab| - 1] == last;
      calc {
        NodeSection(ab);
        NodeSection(a + init) + NodeBlock(last);
        (NodeSection(a) + NodeSection(init)) + NodeBlock(last);
        { AppendAssoc(NodeSection(a), NodeSection(init), NodeBlock(last)); }
        NodeSection(a) + (NodeSection(init) + NodeBlock(last));
        NodeSection(a) + NodeSection(b);
      }
    }
  }

  /** Node `i`'s block (its `  - label` line, then one line per property in
      order, see NodeBlock) stands between the blocks of the nodes before it
      and those of the nodes after it. */
  lemma NodeSectionSplit(nodes: seq<NodeSchema>, i: nat)
    requires i < |nodes|
    ensures NodeSection(nodes) ==
      NodeSection(nodes[..i]) + NodeBlock(nodes[i]) + NodeSection(nodes[i + 1..])
  {
    var before, after := nodes[..i + 1], nodes[i + 1..];
    assert nodes == before + after;
    NodeSectionAppend(before, after);
    assert before[..|before| - 1] == nodes[..i];
    assert before[|before| - 1] == nodes[i];
  }
}
