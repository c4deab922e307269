// What the checker notes about an edit of a file: the functions around it and the module references it touches.
module EditSite {
  import opened Wrappers

  datatype Span = Span(start: int, end: int)

  // A node of the TypeScript tree. `pos` counts the trivia before the node in, `start` does not. `body` and
  // `callee` say which children are a function's body and a call's expression.
  datatype SyntaxNode = SyntaxNode(
    kind: int, pos: int, start: int, end: int, declaredType: bool,
    body: Option<nat>, callee: Option<nat>, children: seq<SyntaxNode>)

  datatype FunctionLikeFacts = FunctionLikeFacts(
    kind: int, start: int, bodyStart: int, bodyEnd: int, blockBody: bool, header: string,
    bodyIndependentSignature: bool)

  const IDENTIFIER := 79
  const IMPORT_KEYWORD := 101
  const METHOD_DECLARATION := 175
  const CONSTRUCTOR := 177
  const GET_ACCESSOR := 178
  const SET_ACCESSOR := 179
  const IMPORT_TYPE := 206
  const CALL_EXPRESSION := 214
  const FUNCTION_EXPRESSION := 219
  const ARROW_FUNCTION := 220
  const BLOCK := 242
  const FUNCTION_DECLARATION := 263

  const FUNCTION_LIKE_KINDS: seq<int> := [
    FUNCTION_DECLARATION, FUNCTION_EXPRESSION, ARROW_FUNCTION, METHOD_DECLARATION, CONSTRUCTOR, GET_ACCESSOR,
    SET_ACCESSOR
  ]

  // The part of a text between two offsets of it.
  function TextBetween(text: string, start: int, end: int): string {
    if 0 <= start <= end <= |text| then text[start..end] else ""
  }

  predicate ContainsSpan(node: SyntaxNode, span: Span) {
    node.start <= span.start && span.end <= node.end
  }

  predicate OverlapsSpan(node: SyntaxNode, span: Span) {
    node.start <= span.end && span.start <= node.end
  }

  function Child(node: SyntaxNode, link: Option<nat>): Option<SyntaxNode> {
    if link.Some? && link.value < |node.children| then Some(node.children[link.value]) else None
  }

  predicate IsModuleReference(node: SyntaxNode, text: string) {
    || node.kind == IMPORT_TYPE
    || (node.kind == CALL_EXPRESSION && Child(node, node.callee).Some?
        && var callee := Child(node, node.callee).value;
        || callee.kind == IMPORT_KEYWORD
        || (callee.kind == IDENTIFIER && TextBetween(text, callee.start, callee.end) == "require"))
  }

  function FunctionLikeBodyOf(node: SyntaxNode): Option<SyntaxNode> {
    if node.kind in FUNCTION_LIKE_KINDS then Child(node, node.body) else None
  }

  function FactsOf(node: SyntaxNode, body: SyntaxNode, text: string): FunctionLikeFacts {
    FunctionLikeFacts(node.kind, node.start, body.start, body.end, body.kind == BLOCK,
      TextBetween(text, node.start, body.start), node.kind == SET_ACCESSOR || node.declaredType)
  }

  // ---- The exhaustive walk ----

  function OwnFacts(node: SyntaxNode, text: string, span: Span): seq<FunctionLikeFacts> {
    if FunctionLikeBodyOf(node).Some? && ContainsSpan(node, span)
    then [FactsOf(node, FunctionLikeBodyOf(node).value, text)]
    else []
  }

  // The facts of the functions around the span, outer before inner, in the order of the text.
  function Enclosing(nodes: seq<SyntaxNode>, text: string, span: Span): seq<FunctionLikeFacts> {
    if nodes == [] then []
    else OwnFacts(nodes[0], text, span) + Enclosing(nodes[0].children, text, span) + Enclosing(nodes[1..], text, span)
  }

  predicate ReferencesModule(nodes: seq<SyntaxNode>, text: string, span: Span) {
    exists node <- nodes ::
      (IsModuleReference(node, text) && OverlapsSpan(node, span)) || ReferencesModule(node.children, text, span)
  }

  // The nodes all of whose ancestors, and which themselves, reach the edit.
  function Overlapping(nodes: seq<SyntaxNode>, span: Span): nat {
    if nodes == [] then 0
    else
      (if span.end < nodes[0].pos || nodes[0].end < span.start then 0 else 1 + Overlapping(nodes[0].children, span))
      + Overlapping(nodes[1..], span)
  }

  // Nodes nested in a range and ordered along the text.
  ghost predicate Ordered(nodes: seq<SyntaxNode>, from: int, to: int)
    decreases nodes
  {
    && (forall i :: 0 <= i < |nodes| ==>
          from <= nodes[i].pos <= nodes[i].start && nodes[i].pos <= nodes[i].end <= to
          && Ordered(nodes[i].children, nodes[i].pos, nodes[i].end))
    && (forall i, j :: 0 <= i < j < |nodes| ==> nodes[i].end <= nodes[j].pos)
  }

  lemma {:induction false} FirstReference(nodes: seq<SyntaxNode>, text: string, span: Span)
    requires nodes != []
    ensures ReferencesModule(nodes, text, span) <==>
      || (IsModuleReference(nodes[0], text) && OverlapsSpan(nodes[0], span))
      || ReferencesModule(nodes[0].children, text, span) || ReferencesModule(nodes[1..], text, span)
  {
    assert nodes == [nodes[0]] + nodes[1..];
  }

  lemma {:induction false} OrderedRest(nodes: seq<SyntaxNode>, i: nat, from: int, to: int)
    requires Ordered(nodes, from, to) && i < |nodes|
    ensures Ordered(nodes[i + 1..], nodes[i].end, to) && nodes[i].end <= to && from <= nodes[i].pos
    ensures Ordered(nodes[i].children, nodes[i].pos, nodes[i].end)
  {
  }

  // A part of the text the span does not touch holds nothing the walk looks for.
  lemma {:induction false} NothingOutside(nodes: seq<SyntaxNode>, text: string, span: Span, from: int, to: int)
    requires Ordered(nodes, from, to) && (span.end < from || to < span.start) && span.start <= span.end
    ensures Enclosing(nodes, text, span) == [] && !ReferencesModule(nodes, text, span) && Overlapping(nodes, span) == 0
    decreases nodes
  {
    if nodes != [] {
      OrderedRest(nodes, 0, from, to);
      NothingOutside(nodes[0].children, text, span, nodes[0].pos, nodes[0].end);
      NothingOutside(nodes[1..], text, span, nodes[0].end, to);
      FirstReference(nodes, text, span);
    }
  }

  // What a walk collects, and two walks one after the other.
  datatype Walk = Walk(enclosing: seq<FunctionLikeFacts>, moduleReference: bool, inspected: nat)

  function WalkOf(nodes: seq<SyntaxNode>, text: string, span: Span): Walk {
    Walk(Enclosing(nodes, text, span), ReferencesModule(nodes, text, span), Overlapping(nodes, span))
  }

  function Then(first: Walk, second: Walk): Walk {
    Walk(first.enclosing + second.enclosing, first.moduleReference || second.moduleReference,
      first.inspected + second.inspected)
  }

  lemma ThenAssociates(a: Walk, b: Walk, c: Walk)
    ensures Then(Then(a, b), c) == Then(a, Then(b, c))
  {
  }

  lemma ThenFromNothing(w: Walk)
    ensures Then(Walk([], false, 0), w) == w
  {
  }

  lemma {:induction false} WalkInParts(a: seq<SyntaxNode>, b: seq<SyntaxNode>, text: string, span: Span)
    ensures WalkOf(a + b, text, span) == Then(WalkOf(a, text, span), WalkOf(b, text, span))
  {
    if a == [] {
      assert a + b == b;
    } else {
      assert (a + b)[1..] == a[1..] + b;
      WalkInParts(a[1..], b, text, span);
      FirstReference(a + b, text, span);
      FirstReference(a, text, span);
    }
  }

  lemma {:induction false} NothingBehind(nodes: seq<SyntaxNode>, i: nat, text: string, span: Span, from: int, to: int)
    requires Ordered(nodes, from, to) && i < |nodes| && span.end < nodes[i].end && span.start <= span.end
    ensures WalkOf(nodes[i + 1..], text, span) == Walk([], false, 0)
  {
    OrderedRest(nodes, i, from, to);
    NothingOutside(nodes[i + 1..], text, span, nodes[i].end, to);
  }

  // Once a child ends behind the span, its later siblings hold nothing.
  lemma {:induction false} NothingAfter(nodes: seq<SyntaxNode>, i: nat, text: string, span: Span, from: int, to: int)
    requires Ordered(nodes, from, to) && i < |nodes| && span.end < nodes[i].end && span.start <= span.end
    ensures WalkOf(nodes, text, span) == WalkOf(nodes[..i + 1], text, span)
  {
    NothingBehind(nodes, i, text, span, from, to);
    assert nodes == nodes[..i + 1] + nodes[i + 1..];
    WalkInParts(nodes[..i + 1], nodes[i + 1..], text, span);
  }

  // A node alone: its own part, then its children's, when it reaches the edit.
  lemma WalkOfOne(node: SyntaxNode, text: string, span: Span)
    requires !(span.end < node.pos) && !(node.end < span.start)
    ensures
      var own := Walk(OwnFacts(node, text, span), IsModuleReference(node, text) && OverlapsSpan(node, span), 1);
      WalkOf([node], text, span) == Then(own, WalkOf(node.children, text, span))
  {
    FirstReference([node], text, span);
    assert [node][0] == node && [node][1..] == [];
    assert Enclosing([node], text, span) == OwnFacts(node, text, span) + Enclosing(node.children, text, span);
    assert !ReferencesModule([], text, span);
    assert Overlapping([node], span) == 1 + Overlapping(node.children, span);
  }

  // A node that begins behind the span is met below these, parts before the span aside.
  ghost predicate MeetsBehind(nodes: seq<SyntaxNode>, span: Span) {
    exists n <- nodes :: span.end < n.pos || (span.start <= n.end && MeetsBehind(n.children, span))
  }

  lemma {:induction false} MeetsOne(node: SyntaxNode, span: Span)
    ensures MeetsBehind([node], span)
      <==> span.end < node.pos || (span.start <= node.end && MeetsBehind(node.children, span))
  {
    assert node in [node];
    assert forall n <- [node] :: n == node;
  }

  lemma {:induction false} MeetsMore(nodes: seq<SyntaxNode>, i: nat, span: Span)
    requires i < |nodes|
    ensures MeetsBehind(nodes[..i + 1], span) <==> MeetsBehind(nodes[..i], span) || MeetsBehind([nodes[i]], span)
    ensures MeetsBehind([nodes[i]], span) ==> MeetsBehind(nodes, span)
  {
    assert nodes[..i + 1] == nodes[..i] + [nodes[i]];
    assert nodes[i] in nodes && forall n <- [nodes[i]] :: n == nodes[i];
  }

  // ---- The scan ----

  class SiteScan {
    const text: string
    const span: Span
    var enclosing: seq<FunctionLikeFacts>
    var moduleReference: bool
    var inspected: nat

    constructor (text: string, span: Span)
      ensures this.text == text && this.span == span && Collected() == Walk([], false, 0)
    {
      this.text, this.span := text, span;
      enclosing, moduleReference, inspected := [], false, 0;
    }

    function Collected(): Walk
      reads this
    {
      Walk(enclosing, moduleReference, inspected)
    }

    method Inspect(node: SyntaxNode) returns (stop: bool)
      requires span.start <= span.end && !(span.end < node.pos) && !(node.end < span.start)
      requires Ordered(node.children, node.pos, node.end)
      modifies this
      ensures Collected() == Then(old(Collected()), WalkOf([node], text, span))
      ensures stop ==> span.end < node.end
      ensures stop <==> MeetsBehind(node.children, span)
      decreases node, 1
    {
      ghost var before := Collected();
      inspected := inspected + 1;
      var body := FunctionLikeBodyOf(node);
      if body.Some? && ContainsSpan(node, span) {
        enclosing := enclosing + [FactsOf(node, body.value, text)];
      }
      moduleReference := moduleReference || (IsModuleReference(node, text) && OverlapsSpan(node, span));
      ghost var own := Walk(OwnFacts(node, text, span), IsModuleReference(node, text) && OverlapsSpan(node, span), 1);
      assert Collected() == Then(before, own);
      stop := ForEachChild(node);
      ThenAssociates(before, own, WalkOf(node.children, text, span));
      WalkOfOne(node, text, span);
    }

    method Visit(node: SyntaxNode) returns (stop: bool)
      requires span.start <= span.end && Ordered([node], node.pos, node.end)
      modifies this
      ensures Collected() == Then(old(Collected()), WalkOf([node], text, span))
      ensures stop ==> span.end < node.end
      ensures stop <==> MeetsBehind([node], span)
      decreases node, 2
    {
      MeetsOne(node, span);
      assert [node][0] == node;
      if span.end < node.pos {
        NothingOutside([node], text, span, node.pos, node.end);
        return true;
      }
      if node.end < span.start {
        NothingOutside([node], text, span, node.pos, node.end);
        return false;
      }
      stop := Inspect(node);
    }

    method ForEachChild(node: SyntaxNode) returns (stop: bool)
      requires span.start <= span.end && Ordered(node.children, node.pos, node.end)
      modifies this
      ensures Collected() == Then(old(Collected()), WalkOf(node.children, text, span))
      ensures stop ==> span.end < node.end
      ensures stop <==> MeetsBehind(node.children, span)
      decreases node, 0
    {
      var children := node.children;
      ghost var before := Collected();
      var i := 0;
      while i < |children|
        invariant 0 <= i <= |children|
        invariant Collected() == Then(before, WalkOf(children[..i], text, span)) && !MeetsBehind(children[..i], span)
      {
        MeetsMore(children, i, span);
        assert Ordered([children[i]], children[i].pos, children[i].end);
        stop := Visit(children[i]);
        OneMoreChild(before, children, i, text, span);
        if stop {
          NothingAfter(children, i, text, span, node.pos, node.end);
          return true;
        }
        i := i + 1;
      }
      assert children[..i] == children;
      stop := false;
    }
  }

  lemma OneMoreChild(before: Walk, children: seq<SyntaxNode>, i: nat, text: string, span: Span)
    requires i < |children|
    ensures Then(Then(before, WalkOf(children[..i], text, span)), WalkOf([children[i]], text, span))
      == Then(before, WalkOf(children[..i + 1], text, span))
  {
    assert children[..i + 1] == children[..i] + [children[i]];
    WalkInParts(children[..i], [children[i]], text, span);
    ThenAssociates(before, WalkOf(children[..i], text, span), WalkOf([children[i]], text, span));
  }

  // ---- The facts of an edit ----

  datatype SourceFile = SourceFile(text: string, tree: SyntaxNode, typescriptModule: bool, declaresGlobal: bool)

  datatype EditSpan = EditSpan(start: int, length: int)

  datatype EditSiteFacts = EditSiteFacts(
    span: EditSpan, typescriptModule: bool, declaresGlobal: bool, moduleReference: bool, syntaxErrors: bool,
    enclosing: seq<FunctionLikeFacts>)

  // The facts a walk gives.
  function FactsFrom(file: SourceFile, span: Span, syntaxErrors: bool, walk: Walk): EditSiteFacts {
    EditSiteFacts(EditSpan(span.start, span.end - span.start), file.typescriptModule, file.declaresGlobal,
      walk.moduleReference, syntaxErrors, walk.enclosing)
  }

  function SiteFacts(file: SourceFile, span: Span, syntaxErrors: bool): EditSiteFacts {
    FactsFrom(file, span, syntaxErrors, WalkOf(file.tree.children, file.text, span))
  }

  ghost predicate WellFormedFile(file: SourceFile) {
    Ordered(file.tree.children, 0, |file.text|)
  }

  // A scan of a whole tree, from nothing.
  method ScanOf(tree: SyntaxNode, text: string, span: Span) returns (walk: Walk)
    requires span.start <= span.end && Ordered(tree.children, tree.pos, tree.end)
    ensures walk == WalkOf(tree.children, text, span)
  {
    var scan := new SiteScan(text, span);
    var stop := scan.ForEachChild(tree);
    walk := scan.Collected();
    ThenFromNothing(WalkOf(tree.children, text, span));
  }

  /** The scan that prunes what ends before the edit and stops at what begins behind it collects what the walk over
      every node collects: the same functions in the same order, and the same module-reference flag. */
  method EditSiteFactsOf(file: SourceFile, span: Span, syntaxErrors: bool) returns (facts: EditSiteFacts)
    requires span.start <= span.end && Ordered(file.tree.children, file.tree.pos, file.tree.end)
    ensures facts == SiteFacts(file, span, syntaxErrors)
  {
    var walk := ScanOf(file.tree, file.text, span);
    facts := FactsFrom(file, span, syntaxErrors, walk);
  }

  // ---- What the walk finds, told of the nodes ----

  // The node is one of these or below one.
  ghost predicate Inside(nodes: seq<SyntaxNode>, node: SyntaxNode) {
    exists n <- nodes :: n == node || Inside(n.children, node)
  }

  // A declaration or expression of a function, a method, a constructor or an accessor, with its body.
  ghost predicate IsFunction(node: SyntaxNode, body: SyntaxNode) {
    && (node.kind == FUNCTION_DECLARATION || node.kind == FUNCTION_EXPRESSION || node.kind == ARROW_FUNCTION
        || node.kind == METHOD_DECLARATION || node.kind == CONSTRUCTOR
        || node.kind == GET_ACCESSOR || node.kind == SET_ACCESSOR)
    && node.body.Some? && node.body.value < |node.children| && node.children[node.body.value] == body
  }

  // Its signature does not depend on its body.
  predicate IsDeclared(node: SyntaxNode) {
    node.declaredType || node.kind == SET_ACCESSOR
  }

  ghost predicate Describes(facts: FunctionLikeFacts, node: SyntaxNode, body: SyntaxNode, text: string) {
    && facts.kind == node.kind && facts.start == node.start
    && facts.bodyStart == body.start && facts.bodyEnd == body.end && (facts.blockBody <==> body.kind == BLOCK)
    && facts.header == (if 0 <= node.start <= body.start <= |text| then text[node.start..body.start] else "")
    && (facts.bodyIndependentSignature <==> IsDeclared(node))
  }

  ghost predicate Around(nodes: seq<SyntaxNode>, span: Span, node: SyntaxNode, body: SyntaxNode) {
    Inside(nodes, node) && IsFunction(node, body) && node.start <= span.start && span.end <= node.end
  }

  lemma {:induction false} InsideFirst(nodes: seq<SyntaxNode>, node: SyntaxNode)
    requires nodes != []
    ensures Inside(nodes, node) <==> nodes[0] == node || Inside(nodes[0].children, node) || Inside(nodes[1..], node)
  {
    assert nodes == [nodes[0]] + nodes[1..];
  }

  lemma OwnFactsAreExact(node: SyntaxNode, text: string, span: Span, facts: FunctionLikeFacts)
    ensures facts in OwnFacts(node, text, span)
      <==> exists body :: IsFunction(node, body) && node.start <= span.start && span.end <= node.end
             && Describes(facts, node, body, text)
  {
    assert node.kind in FUNCTION_LIKE_KINDS <==>
      node.kind == FUNCTION_DECLARATION || node.kind == FUNCTION_EXPRESSION || node.kind == ARROW_FUNCTION
      || node.kind == METHOD_DECLARATION || node.kind == CONSTRUCTOR
      || node.kind == GET_ACCESSOR || node.kind == SET_ACCESSOR;
    if FunctionLikeBodyOf(node).Some? {
      assert IsFunction(node, FunctionLikeBodyOf(node).value);
    }
  }

  /** The functions collected are exactly those of the tree around the span, at any depth, each described as it is. */
  lemma {:induction false} EnclosingAreNodes(nodes: seq<SyntaxNode>, text: string, span: Span, facts: FunctionLikeFacts)
    ensures facts in Enclosing(nodes, text, span)
      <==> exists node, body :: Around(nodes, span, node, body) && Describes(facts, node, body, text)
    decreases nodes
  {
    if nodes != [] {
      EnclosingAreNodes(nodes[0].children, text, span, facts);
      EnclosingAreNodes(nodes[1..], text, span, facts);
      OwnFactsAreExact(nodes[0], text, span, facts);
      forall node ensures Inside(nodes, node)
        <==> nodes[0] == node || Inside(nodes[0].children, node) || Inside(nodes[1..], node)
      {
        InsideFirst(nodes, node);
      }
      AroundFirst(nodes, text, span, facts);
    }
  }

  lemma AroundFirst(nodes: seq<SyntaxNode>, text: string, span: Span, facts: FunctionLikeFacts)
    requires nodes != []
    ensures (exists node, body :: Around(nodes, span, node, body) && Describes(facts, node, body, text))
      <==> || (exists body :: IsFunction(nodes[0], body) && nodes[0].start <= span.start && span.end <= nodes[0].end
                 && Describes(facts, nodes[0], body, text))
           || (exists node, body ::
                 Around(nodes[0].children, span, node, body) && Describes(facts, node, body, text))
           || (exists node, body :: Around(nodes[1..], span, node, body) && Describes(facts, node, body, text))
  {
    if node, body :| Around(nodes, span, node, body) && Describes(facts, node, body, text) {
      InsideFirst(nodes, node);
    }
    if body :|
      IsFunction(nodes[0], body) && nodes[0].start <= span.start && span.end <= nodes[0].end
      && Describes(facts, nodes[0], body, text)
    {
      InsideFirst(nodes, nodes[0]);
      assert Around(nodes, span, nodes[0], body);
    }
    if node, body :| Around(nodes[0].children, span, node, body) && Describes(facts, node, body, text) {
      InsideFirst(nodes, node);
      assert Around(nodes, span, node, body);
    }
    if node, body :| Around(nodes[1..], span, node, body) && Describes(facts, node, body, text) {
      InsideFirst(nodes, node);
      assert Around(nodes, span, node, body);
    }
  }

  // A type imported, or a call of `import` or of what reads "require".
  ghost predicate RefersToModule(node: SyntaxNode, text: string) {
    || node.kind == IMPORT_TYPE
    || (node.kind == CALL_EXPRESSION && node.callee.Some? && node.callee.value < |node.children|
        && var callee := node.children[node.callee.value];
        || callee.kind == IMPORT_KEYWORD
        || (callee.kind == IDENTIFIER && 0 <= callee.start <= callee.end <= |text|
            && text[callee.start..callee.end] == "require"))
  }

  /** The walk notes a module reference exactly when one of the tree, at any depth, touches the span. */
  lemma {:induction false} ReferencesAreNodes(nodes: seq<SyntaxNode>, text: string, span: Span)
    ensures ReferencesModule(nodes, text, span)
      <==> exists node ::
             Inside(nodes, node) && RefersToModule(node, text) && node.start <= span.end && span.start <= node.end
    decreases nodes
  {
    if nodes != [] {
      FirstReference(nodes, text, span);
      ReferencesAreNodes(nodes[0].children, text, span);
      ReferencesAreNodes(nodes[1..], text, span);
      forall node ensures Inside(nodes, node)
        <==> nodes[0] == node || Inside(nodes[0].children, node) || Inside(nodes[1..], node)
      {
        InsideFirst(nodes, node);
      }
      assert IsModuleReference(nodes[0], text) <==> RefersToModule(nodes[0], text);
    }
  }
}
