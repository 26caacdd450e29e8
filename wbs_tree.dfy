/** The work-breakdown records the server sends for the WBS view, and their
    conversion into the node shape the jstree widget consumes. */
module WbsTree {
  import opened JsValues

  /** One record of the server's `wbsData` list: a flat parent-pointer tree.
      Every field is whatever JSON value the server put there (or
      `Undefined` when the property is absent). */
  datatype WbsItem = WbsItem(
    id: JsValue,
    text: JsValue,
    parent: JsValue,
    kind: JsValue,          // the record's `type` property
    status: JsValue,
    progress: JsValue,
    workEstimate: JsValue,
    dueDate: JsValue,
    wbsNumber: JsValue,
    level: JsValue)

  /** The `data` payload of a jstree node: the record's descriptive fields. */
  datatype NodeData = NodeData(
    kind: JsValue,
    status: JsValue,
    progress: JsValue,
    workEstimate: JsValue,
    dueDate: JsValue,
    wbsNumber: JsValue,
    level: JsValue)

  /** A jstree node. `expanded` and `disabled` are the node's `state` object (`opened`, `disabled`). */
  datatype JstreeNode = JstreeNode(
    id: JsValue,
    text: JsValue,
    parent: JsValue,
    expanded: bool,
    disabled: bool,
    data: NodeData,
    icon: string)

  /** jstree's marker for a top-level node. */
  const TreeRoot: JsValue := Str("#")

  /** The Font Awesome class shown for a record of the given type. */
  function IconFor(kind: JsValue): (icon: string)
    ensures kind == Str("project") <==> icon == "fas fa-project-diagram"
    ensures kind == Str("phase") <==> icon == "fas fa-layer-group"
    ensures kind == Str("task") <==> icon == "fas fa-tasks"
    ensures icon in {"fas fa-project-diagram", "fas fa-layer-group", "fas fa-tasks", "fas fa-circle"}
  {
    if kind == Str("project") then "fas fa-project-diagram"
    else if kind == Str("phase") then "fas fa-layer-group"
    else if kind == Str("task") then "fas fa-tasks"
    else "fas fa-circle"
  }

  /** The parent a jstree node gets: `null` becomes the tree root `'#'`,
      any other value (a string id, `undefined`, ...) is passed on as is. */
  function JstreeParent(parent: JsValue): (p: JsValue)
    ensures parent == Null ==> p == TreeRoot
    ensures parent != Null ==> p == parent
    ensures p != Null
  {
    if parent == Null then TreeRoot else parent
  }

  /** Converts one server record to a jstree node, expanded and enabled. */
  function ToJstreeNode(item: WbsItem): (n: JstreeNode)
    ensures n.id == item.id && n.text == item.text
    ensures n.parent == JstreeParent(item.parent)
    ensures n.expanded && !n.disabled
    ensures n.data == NodeData(item.kind, item.status, item.progress, item.workEstimate,
                               item.dueDate, item.wbsNumber, item.level)
    ensures n.icon == IconFor(item.kind)
  {
    JstreeNode(
      item.id, item.text, JstreeParent(item.parent), true, false,
      NodeData(item.kind, item.status, item.progress, item.workEstimate,
               item.dueDate, item.wbsNumber, item.level),
      IconFor(item.kind))
  }

  /** The whole `wbsData.map(...)`: one node per record, in record order. */
  function JstreeData(items: seq<WbsItem>): (nodes: seq<JstreeNode>)
    ensures |nodes| == |items|
    ensures forall i :: 0 <= i < |items| ==> nodes[i] == ToJstreeNode(items[i])
  {
    seq(|items|, i requires 0 <= i < |items| => ToJstreeNode(items[i]))
  }

  /** Reads a jstree parent back as the server's parent value. */
  function ServerParent(p: JsValue): JsValue {
    if p == TreeRoot then Null else p
  }

  /** The parent conversion loses nothing unless a record already names `'#'`
      as its parent, which then reads back as `null`. */
  lemma JstreeParentRoundTrip(parent: JsValue)
    ensures parent != TreeRoot ==> ServerParent(JstreeParent(parent)) == parent
    ensures parent == TreeRoot ==> ServerParent(JstreeParent(parent)) == Null
  {
  }

  /** In the converted list, exactly the records whose parent is `null` become
      top-level nodes, provided no record already uses `'#'` as a parent;
      ids, texts and order are those of the records. */
  lemma JstreeTopLevel(items: seq<WbsItem>, i: nat)
    requires i < |items|
    requires forall j :: 0 <= j < |items| ==> items[j].parent != TreeRoot
    ensures |JstreeData(items)| == |items|
    ensures JstreeData(items)[i].parent == TreeRoot <==> items[i].parent == Null
    ensures JstreeData(items)[i].id == items[i].id && JstreeData(items)[i].text == items[i].text
  {
  }

  /** The fields `displayWBSAsHTML` reads from whatever it is handed, looked up
      by name. Given a jstree node, only `id`, `text` and `parent` exist at the
      top level; `type`, `status` and the rest sit under `data`, so reading
      them from the node gives `undefined`. */
  function NodeAsItem(n: JstreeNode): (item: WbsItem)
    ensures item.id == n.id && item.text == n.text && item.parent == n.parent
    ensures item.status == Undefined && item.kind == Undefined && item.wbsNumber == Undefined
  {
    WbsItem(n.id, n.text, n.parent, Undefined, Undefined, Undefined, Undefined,
            Undefined, Undefined, Undefined)
  }

  /** `NodeAsItem` over a whole list. */
  function NodesAsItems(nodes: seq<JstreeNode>): (items: seq<WbsItem>)
    ensures |items| == |nodes|
    ensures forall i :: 0 <= i < |nodes| ==> items[i] == NodeAsItem(nodes[i])
  {
    seq(|nodes|, i requires 0 <= i < |nodes| => NodeAsItem(nodes[i]))
  }
}
