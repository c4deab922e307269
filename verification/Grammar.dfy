// Which trees are programs of the small language: what role each kind has, and what each kind takes as children.
module Grammar {
  import opened Syntax

  datatype Role = Expression | Statement | Case | Whole

  function RoleOf(k: Kind): Role {
    match k
    case Literal(_) => Expression
    case Identifier(_) => Expression
    case Unary(_) => Expression
    case Delete => Expression
    case Update(_) => Expression
    case Binary(_) => Expression
    case Logical(_) => Expression
    case Conditional => Expression
    case Sequence => Expression
    case Member => Expression
    case Call => Expression
    case Assign(_) => Expression
    case Paren => Expression
    case CoverCall(_) => Expression
    case ActiveTest(_) => Expression
    case ExpressionStatement => Statement
    case Block => Statement
    case If => Statement
    case While => Statement
    case Switch => Statement
    case Break => Statement
    case Continue => Statement
    case Return => Statement
    case Throw => Statement
    case Try => Statement
    case SwitchCase(_) => Case
    case Program => Whole
  }

  predicate AllOf(role: Role, ns: seq<Node>) {
    forall n <- ns :: RoleOf(n.kind) == role
  }

  // A variable or a property, in parentheses or not.
  predicate IsTarget(n: Node) {
    Unwrap(n).kind.Identifier? || Unwrap(n).kind.Member?
  }

  // The children a kind takes.
  predicate Takes(k: Kind, cs: seq<Node>) {
    match k
    case Literal(_) => cs == []
    case Identifier(_) => cs == []
    case Unary(_) => |cs| == 1 && AllOf(Expression, cs)
    case Delete => |cs| == 1 && AllOf(Expression, cs)
    case Update(_) => |cs| == 1 && AllOf(Expression, cs) && IsTarget(cs[0])
    case Binary(_) => |cs| == 2 && AllOf(Expression, cs)
    case Logical(_) => |cs| == 2 && AllOf(Expression, cs)
    case Conditional => |cs| == 3 && AllOf(Expression, cs)
    case Sequence => |cs| > 0 && AllOf(Expression, cs)
    case Member => |cs| == 2 && AllOf(Expression, cs)
    case Call => |cs| > 0 && AllOf(Expression, cs)
    case Assign(_) => |cs| == 2 && AllOf(Expression, cs) && IsTarget(cs[0])
    case Paren => |cs| == 1 && AllOf(Expression, cs)
    case CoverCall(_) => cs == []
    case ActiveTest(_) => cs == []
    case ExpressionStatement => |cs| == 1 && AllOf(Expression, cs)
    case Block => AllOf(Statement, cs)
    case If => 2 <= |cs| <= 3 && RoleOf(cs[0].kind) == Expression && AllOf(Statement, cs[1..])
    case While => |cs| == 2 && RoleOf(cs[0].kind) == Expression && RoleOf(cs[1].kind) == Statement
    case Switch => |cs| > 0 && RoleOf(cs[0].kind) == Expression && AllOf(Case, cs[1..])
    case Break => cs == []
    case Continue => cs == []
    case Return => |cs| <= 1 && AllOf(Expression, cs)
    case Throw => |cs| == 1 && AllOf(Expression, cs)
    case Try => |cs| == 2 && cs[0].kind.Block? && cs[1].kind.Block?
    case SwitchCase(hasTest) =>
      if hasTest then |cs| > 0 && RoleOf(cs[0].kind) == Expression && AllOf(Statement, cs[1..])
      else AllOf(Statement, cs)
    case Program => AllOf(Statement, cs)
  }

  predicate Grammatical(n: Node) {
    Takes(n.kind, n.children) && forall c <- n.children :: Grammatical(c)
  }
}
