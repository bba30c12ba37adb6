/** Workflows as they are stored: nodes on a canvas and the connections between them. */
module Workflows {
  import opened JsonValues
  import opened Graph

  datatype Node = Node(
    name: string, typ: string, position: seq<int>, disabled: bool, webhookId: string, parameters: map<string, Json>)

  datatype Workflow = Workflow(id: string, nodes: seq<Node>, connections: Connections)
}
