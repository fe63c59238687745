/** The records the portfolio graph is made of: the nodes and links that the
    graph builder produces and the force-directed view consumes. */
module Graph {

  /** The `type` field of a node, which the view also uses as its node group.
      The builder only creates root and project nodes; the view's size and text
      tables also know the tag kind. */
  datatype NodeKind = RootKind | TagKind | ProjectKind

  /** A node `{id, type}`; its id is a project title or the root's name. */
  datatype Node = Node(id: string, kind: NodeKind)

  /** The `type` field of a link: "p2r" (project to root) or "p2p" (project to project). */
  datatype LinkKind = ProjectToRoot | ProjectToProject

  /** A link `{source, target, type}` between two node ids. */
  datatype Link = Link(source: string, target: string, kind: LinkKind)

  /** The set of ids of a node list. */
  ghost function Ids(nodes: seq<Node>): set<string>
  {
    set n | n in nodes :: n.id
  }
}
