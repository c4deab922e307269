// The syntax trees the instrumenter works on, reduced to a small JavaScript-like language.
//
// A node is a kind and its child slots in source order. A parsed node carries a label, which
// stands for the `type:start:end` identity two nodes are compared by; nodes built by the
// instrumenter carry none.
module Syntax {
  import opened Wrappers

  type Id = string
  type Label = nat

  datatype LogicalOp = And | Or | Coalesce

  datatype Kind =
    | Literal(raw: string)
    | Identifier(name: string)
    | Unary(unary: string)        // every unary operator but `delete`
    | Delete
    | Update(update: string)
    | Binary(binary: string)
    | Logical(logical: LogicalOp)
    | Conditional
    | Sequence
    | Member                      // computed access: object, property
    | Call                        // callee, arguments
    | Assign(assign: string)
    | Paren
    | CoverCall(ids: seq<Id>)     // a call of the coverage helper
    | ActiveTest(id: Id)          // a call of the is-active helper
    | ExpressionStatement
    | Block
    | If
    | While
    | Switch                      // discriminant, cases
    | SwitchCase(hasTest: bool)   // test when present, consequent
    | Break
    | Continue
    | Return
    | Throw
    | Try                         // block, handler
    | Program

  datatype Node = Node(site: Option<Label>, kind: Kind, children: seq<Node>)

  // The kinds listed as expressions. Neither an assignment nor a parenthesized expression is.
  predicate IsExpressionKind(k: Kind) {
    k.Literal? || k.Identifier? || k.Unary? || k.Delete? || k.Update? || k.Binary? || k.Logical?
    || k.Conditional? || k.Sequence? || k.Member? || k.Call? || k.CoverCall? || k.ActiveTest?
  }

  // The kinds listed as statements. `try` and the program itself are not.
  predicate IsStatementKind(k: Kind) {
    k.ExpressionStatement? || k.Block? || k.If? || k.While? || k.Switch? || k.Break? || k.Continue?
    || k.Return? || k.Throw?
  }

  // Strips parentheses, as the expression placer does with a replacement.
  function Unwrap(n: Node): (core: Node)
    ensures core == n || core < n
    ensures !core.kind.Paren? || |core.children| != 1
  {
    if n.kind.Paren? && |n.children| == 1 then Unwrap(n.children[0]) else n
  }

  function Consequent(n: Node): seq<Node> {
    if n.kind.SwitchCase? && n.kind.hasTest && |n.children| > 0 then n.children[1..] else n.children
  }

  // The kinds whose first child is used as a reference rather than for its value.
  predicate UsesReference(k: Kind) {
    k.Delete? || k.Update? || k.Assign? || k.Call?
  }

  // Which targets a reference context treats as a reference: a call only keeps the receiver of a
  // member access, the other contexts name a variable or a property.
  predicate IsReference(context: Kind, target: Kind) {
    target.Member? || (target.Identifier? && !context.Call?)
  }

  function Labels(n: Node): seq<Label>
    decreases n, 1
  {
    (if n.site.Some? then [n.site.value] else []) + LabelsAll(n.children)
  }

  function LabelsAll(ns: seq<Node>): seq<Label>
    decreases ns, 0
  {
    if ns == [] then [] else Labels(ns[0]) + LabelsAll(ns[1..])
  }

  ghost predicate Distinct<T(!new)>(s: seq<T>) {
    forall i, j :: 0 <= i < j < |s| ==> s[i] != s[j]
  }

  // The AST is a tree whose nodes have pairwise different identities.
  ghost predicate DistinctLabels(n: Node) {
    Distinct(Labels(n))
  }
}
