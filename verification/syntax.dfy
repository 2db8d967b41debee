/** The boundary with the external parser and query engine. Parsing and
    query evaluation are not modelled; their outcome reaches the rule as an
    ordered list of captures over syntax nodes. */
module Syntax {

  /** The fields of a tree-sitter syntax node the rules read: zero-based
      start and end row and column, absolute character offsets, and the
      node's text. */
  datatype Node = Node(
    startRow: int, startCol: int, startIndex: int,
    endRow: int, endCol: int, endIndex: int,
    text: string)

  /** One `(name, node)` pair produced by evaluating a query. */
  datatype Capture = Capture(name: string, node: Node)

  /** Outcome of parsing the source and evaluating the rule's query over
      its root node: the captures in the evaluator's order, or the error
      the external engine raised (a malformed query, say). */
  datatype EngineRun = Captured(captures: seq<Capture>) | EngineFailed(reason: string)
}
