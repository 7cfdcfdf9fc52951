/**
 * The sidebar's two decisions that are not presentation: how an uploaded
 * document is classified before it is handed to the graph store, and when
 * the remove button asks for a removal.
 */
module Sidebar {
  import opened Family

  /** A parsed JSON value (object members after duplicate keys are resolved). */
  datatype Json =
    | JNull
    | JBool(b: bool)
    | JNumber(n: real)
    | JString(s: string)
    | JArray(items: seq<Json>)
    | JObject(members: map<string, Json>)

  /** What reading and parsing the chosen file produced. */
  datatype FileContents = Unreadable | Parsed(value: Json)

  const WrongFormatMessage: string := "Неверный формат JSON"
  const ReadErrorMessage: string := "Ошибка чтения файла"

  /** The single effect of a file change. */
  datatype ImportOutcome =
    | NoEffect
    | Load(nodes: seq<Json>, edges: Json)
    | Alert(message: string)

  /** `json.nodes`: the member of an object; `null.nodes` throws. */
  datatype Member = Missing | Present(v: Json) | Throws

  function NodesMember(j: Json): (m: Member)
    ensures m == Throws <==> j == JNull
    ensures m.Present? <==> j.JObject? && "nodes" in j.members
    ensures m.Present? ==> m.v == j.members["nodes"]
  {
    match j
    case JNull => Throws
    case JObject(ms) => if "nodes" in ms then Present(ms["nodes"]) else Missing
    case _ => Missing
  }

  /** `json.edges ?? []`: the edges member unless it is absent or null. */
  function EdgesOrEmpty(members: map<string, Json>): (r: Json)
    ensures r != JNull
    ensures "edges" in members && members["edges"] != JNull ==> r == members["edges"]
    ensures ("edges" !in members || members["edges"] == JNull) ==> r == JArray([])
  {
    if "edges" in members && members["edges"] != JNull then members["edges"] else JArray([])
  }

  /**
   * `handleFileChange`: no file, no effect.  An object whose `nodes` is an
   * array loads it with its edges (or none); otherwise a bare array loads
   * as nodes without edges; any other value is a wrong format.  A file
   * that cannot be read or parsed, and a top-level `null` (reading
   * `null.nodes` throws), give the read-error alert instead.
   */
  function HandleFileChange(file: Option<FileContents>): (r: ImportOutcome)
    ensures file.None? ==> r == NoEffect
    ensures r.Load? <==>
      (file.Some? && file.value.Parsed? &&
       ((file.value.value.JObject? && "nodes" in file.value.value.members &&
         file.value.value.members["nodes"].JArray?) || file.value.value.JArray?))
    ensures r.Load? && file.value.value.JObject? ==>
      r.nodes == file.value.value.members["nodes"].items && r.edges == EdgesOrEmpty(file.value.value.members)
    ensures r.Load? && file.value.value.JArray? ==>
      r.nodes == file.value.value.items && r.edges == JArray([])
    ensures r == Alert(ReadErrorMessage) <==> file == Some(Unreadable) || file == Some(Parsed(JNull))
    ensures r == Alert(WrongFormatMessage) <==> file.Some? && !r.Load? && r != Alert(ReadErrorMessage)
  {
    match file
    case None => NoEffect
    case Some(Unreadable) => Alert(ReadErrorMessage)
    case Some(Parsed(json)) =>
      var nodes := NodesMember(json);
      if nodes == Throws then Alert(ReadErrorMessage)
      else if nodes.Present? && nodes.v.JArray? then Load(nodes.v.items, EdgesOrEmpty(json.members))
      else if json.JArray? then Load(json.items, JArray([]))
      else Alert(WrongFormatMessage)
  }

  /**
   * The remove button: `selectedNode && onRemoveNode(selectedNode.node.id)`.
   * The id to remove, if any.
   */
  function RemoveRequest(selectedNode: Option<Person>): (r: Option<int>)
    ensures r.Some? <==> selectedNode.Some?
    ensures r.Some? ==> r.value == selectedNode.value.id
  {
    if selectedNode.Some? then Some(selectedNode.value.id) else None
  }
}
