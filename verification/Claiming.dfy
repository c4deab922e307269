// Which nodes claim themselves, told of kinds and positions alone.
module Claiming {
  import opened Wrappers
  import opened Syntax
  import opened Placers
  import opened Planning
  import opened Placements
  import opened Grammar

  // Assignments, parentheses, `try` and the program itself take no mutants.
  predicate NeverClaims(k: Kind) {
    k.Assign? || k.Paren? || k.Try? || k.Program?
  }

  predicate IsFirstOf(parent: Node, n: Node) {
    |parent.children| > 0 && parent.children[0].site == n.site
  }

  predicate IsSecondOf(parent: Node, n: Node) {
    |parent.children| > 1 && parent.children[1].site == n.site
  }

  // Where an expression is not claimed: the operand of `delete`, the left of an assignment and, if it is a member
  // access or a call, a callee or the object of a member access.
  predicate StandsFixed(n: Node, parent: Node) {
    || parent.kind.Delete?
    || (parent.kind.Assign? && IsFirstOf(parent, n))
    || ((n.kind.Member? || n.kind.Call?) && parent.kind.Call? && IsFirstOf(parent, n))
    || ((n.kind.Member? || n.kind.Call?) && parent.kind.Member? && !IsSecondOf(parent, n))
  }

  // The node takes mutants itself.
  predicate ClaimsItself(f: Frame) {
    && !NeverClaims(f.node.kind)
    && (RoleOf(f.node.kind) == Expression && f.parent.Some? ==> !StandsFixed(f.node, f.parent.value.node))
  }

  /** A node's nearest claim is itself or that of its parent, by its kind and where it stands alone. */
  lemma {:induction false} HomeIsExact(f: Frame)
    ensures Home(f) ==
      if ClaimsItself(f) then Some(f) else if f.parent.Some? then Home(f.parent.value) else None
  {
    assert RoleOf(f.node.kind) == Expression && !NeverClaims(f.node.kind) <==> IsExpressionKind(f.node.kind);
    assert RoleOf(f.node.kind) == Statement && !NeverClaims(f.node.kind) <==> IsStatementKind(f.node.kind);
    assert f.parent.Some? ==>
      (StandsFixed(f.node, f.parent.value.node) <==> IsUnmutatableContext(f.node, f.parent.value.node));
  }

  function PlacerFor(role: Role): Placer
    requires role != Whole
  {
    match role
    case Expression => ExpressionPlacer
    case Statement => StatementPlacer
    case Case => SwitchCasePlacer
  }

  /** Every placement is at a node that takes mutants, with the placer for its role. */
  lemma PlacerIsExact(root: Node, ctx: Context, p: Planned)
    requires DistinctLabels(root) && PlanInstrumentation(root, ctx).Ok? && p in PlanInstrumentation(root, ctx).value
    ensures !NeverClaims(p.node.kind) && RoleOf(p.node.kind) != Whole && p.placer == PlacerFor(RoleOf(p.node.kind))
  {
    PlacementIsSound(root, ctx, p);
  }
}
