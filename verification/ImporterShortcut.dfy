// When the importers of a mutated file need no re-check: the edit stays inside the body of a function whose
// signature does not depend on it.
module ImporterShortcut {
  import opened EditSite

  datatype Clause =
    | OutsideFunctionBody
    | BodyDependentSignature
    | NotTypescriptModule
    | ModuleReference
    | SyntaxError
    | SharedFile

  datatype Tree = Original | Mutated

  datatype Decision = ShortcutTaken | ImportersRechecked(clause: Clause, tree: Tree)

  datatype Command = Command(original: EditSiteFacts, mutated: EditSiteFacts, compiledElsewhere: bool)

  datatype Rule = Rule(clause: Clause, tree: Tree, fails: bool)

  datatype Pair = Pair(original: FunctionLikeFacts, mutated: FunctionLikeFacts)

  function EditableEndOf(facts: FunctionLikeFacts): int {
    if facts.blockBody then facts.bodyEnd - 1 else facts.bodyEnd
  }

  predicate SpanInsideBody(span: EditSpan, facts: FunctionLikeFacts) {
    facts.bodyStart <= span.start && span.start + span.length <= EditableEndOf(facts)
  }

  function Filter<T(!new)>(keep: T -> bool, items: seq<T>): (kept: seq<T>)
    ensures forall item :: item in kept <==> item in items && keep(item)
  {
    if items == [] then []
    else if keep(items[0]) then [items[0]] + Filter(keep, items[1..]) else Filter(keep, items[1..])
  }

  function BodiesContaining(site: EditSiteFacts): seq<FunctionLikeFacts> {
    Filter((facts: FunctionLikeFacts) => SpanInsideBody(site.span, facts), site.enclosing)
  }

  function BodyIndependentOf(facts: seq<FunctionLikeFacts>): seq<FunctionLikeFacts> {
    Filter((f: FunctionLikeFacts) => f.bodyIndependentSignature, facts)
  }

  predicate MatchesMutated(original: FunctionLikeFacts, mutated: FunctionLikeFacts) {
    && mutated.kind == original.kind && mutated.start == original.start
    && mutated.header == original.header && mutated.bodyIndependentSignature
  }

  function PairsWith(original: FunctionLikeFacts, enclosing: seq<FunctionLikeFacts>): (pairs: seq<Pair>)
    ensures forall pair ::
      pair in pairs <==>
        pair.original == original && pair.mutated in enclosing && MatchesMutated(original, pair.mutated)
  {
    if enclosing == [] then []
    else
      var rest := PairsWith(original, enclosing[1..]);
      if MatchesMutated(original, enclosing[0]) then [Pair(original, enclosing[0])] + rest else rest
  }

  function MatchedPairs(candidates: seq<FunctionLikeFacts>, enclosing: seq<FunctionLikeFacts>): (pairs: seq<Pair>)
    ensures forall pair ::
      pair in pairs <==>
        pair.original in candidates && pair.mutated in enclosing && MatchesMutated(pair.original, pair.mutated)
  {
    if candidates == [] then [] else PairsWith(candidates[0], enclosing) + MatchedPairs(candidates[1..], enclosing)
  }

  predicate PairAdmitsShortcut(command: Command, pair: Pair) {
    && SpanInsideBody(command.mutated.span, pair.mutated)
    && pair.mutated.bodyEnd - pair.mutated.bodyStart
       == pair.original.bodyEnd - pair.original.bodyStart + (command.mutated.span.length - command.original.span.length)
  }

  predicate IsNotTypescriptModule(site: EditSiteFacts) {
    !site.typescriptModule || site.declaresGlobal
  }

  function RulesOf(command: Command): seq<Rule> {
    var originalBodies := BodiesContaining(command.original);
    var candidates := BodyIndependentOf(originalBodies);
    var pairs := MatchedPairs(candidates, command.mutated.enclosing);
    [
      Rule(OutsideFunctionBody, Original, originalBodies == []),
      Rule(BodyDependentSignature, Original, candidates == []),
      Rule(NotTypescriptModule, Original, IsNotTypescriptModule(command.original)),
      Rule(ModuleReference, Original, command.original.moduleReference),
      Rule(SyntaxError, Original, command.original.syntaxErrors),
      Rule(SharedFile, Original, command.compiledElsewhere),
      Rule(NotTypescriptModule, Mutated, IsNotTypescriptModule(command.mutated)),
      Rule(ModuleReference, Mutated, command.mutated.moduleReference),
      Rule(SyntaxError, Mutated, command.mutated.syntaxErrors),
      Rule(BodyDependentSignature, Mutated, pairs == []),
      Rule(OutsideFunctionBody, Mutated, !exists pair <- pairs :: PairAdmitsShortcut(command, pair))
    ]
  }

  function FirstFailing(rules: seq<Rule>): Decision {
    if rules == [] then ShortcutTaken
    else if rules[0].fails then ImportersRechecked(rules[0].clause, rules[0].tree)
    else FirstFailing(rules[1..])
  }

  function AdmitImporterShortcut(command: Command): Decision {
    FirstFailing(RulesOf(command))
  }

  // ---- When the shortcut is taken ----

  lemma {:induction false} NoneFails(rules: seq<Rule>)
    ensures FirstFailing(rules) == ShortcutTaken <==> forall i :: 0 <= i < |rules| ==> !rules[i].fails
  {
    if rules != [] {
      NoneFails(rules[1..]);
      assert rules == [rules[0]] + rules[1..];
    }
  }

  // ---- What it means for the texts ----

  // Where the replacement stands in the mutated text.
  function Replaced(span: Span, replacement: string): Span {
    Span(span.start, span.start + |replacement|)
  }

  // The facts of a mutation: the original's around a span, and the spliced text's around what replaced it.
  function CommandOf(
      original: SourceFile, mutated: SourceFile, span: Span, replacement: string,
      originalErrors: bool, mutatedErrors: bool, compiledElsewhere: bool): Command
  {
    Command(SiteFacts(original, span, originalErrors),
      SiteFacts(mutated, Replaced(span, replacement), mutatedErrors), compiledElsewhere)
  }

  function Spliced(text: string, span: Span, replacement: string): string
    requires 0 <= span.start <= span.end <= |text|
  {
    text[..span.start] + replacement + text[span.end..]
  }

  // A function's body lies in it, and it in the text.
  predicate InText(facts: FunctionLikeFacts, text: string) {
    && 0 <= facts.start <= facts.bodyStart <= facts.bodyEnd <= |text|
    && facts.header == text[facts.start..facts.bodyStart]
  }

  ghost predicate BodiesInNodes(nodes: seq<SyntaxNode>) {
    forall node <- nodes ::
      && (FunctionLikeBodyOf(node).Some? ==>
            node.start <= FunctionLikeBodyOf(node).value.start <= FunctionLikeBodyOf(node).value.end)
      && BodiesInNodes(node.children)
  }

  lemma {:induction false} NotedInText(
      nodes: seq<SyntaxNode>, text: string, span: Span, facts: FunctionLikeFacts, from: int, to: int)
    requires Ordered(nodes, from, to) && BodiesInNodes(nodes) && 0 <= from && to <= |text|
    requires facts in Enclosing(nodes, text, span)
    ensures InText(facts, text)
    decreases nodes
  {
    OrderedRest(nodes, 0, from, to);
    var node := nodes[0];
    assert nodes == [node] + nodes[1..];
    if facts in OwnFacts(node, text, span) {
      var body := node.body.value;
      OrderedRest(node.children, body, node.pos, node.end);
    } else if facts in Enclosing(node.children, text, span) {
      NotedInText(node.children, text, span, facts, node.pos, node.end);
    } else {
      NotedInText(nodes[1..], text, span, facts, node.end, to);
    }
  }

  // Same function before and after: it starts at the same place with the same header, and the texts differ only
  // inside its body.
  ghost predicate SameOutsideBody(original: string, mutated: string, o: FunctionLikeFacts, m: FunctionLikeFacts) {
    && InText(o, original) && InText(m, mutated)
    && m.kind == o.kind && m.start == o.start && m.header == o.header && m.bodyStart == o.bodyStart
    && m.bodyEnd - o.bodyEnd == |mutated| - |original|
    && original[..o.bodyStart] == mutated[..m.bodyStart]
    && original[o.bodyEnd..] == mutated[m.bodyEnd..]
    && (o.blockBody || m.blockBody ==>
          o.bodyStart < o.bodyEnd && m.bodyStart < m.bodyEnd && original[o.bodyEnd - 1] == mutated[m.bodyEnd - 1])
  }

  lemma AdmittedSameOutside(
      original: string, span: Span, replacement: string, o: FunctionLikeFacts, m: FunctionLikeFacts)
    requires 0 <= span.start <= span.end <= |original|
    requires InText(o, original) && InText(m, Spliced(original, span, replacement)) && MatchesMutated(o, m)
    requires SpanInsideBody(EditSpan(span.start, span.end - span.start), o)
    requires SpanInsideBody(EditSpan(span.start, |replacement|), m)
    requires m.bodyEnd - m.bodyStart == o.bodyEnd - o.bodyStart + (|replacement| - (span.end - span.start))
    ensures SameOutsideBody(original, Spliced(original, span, replacement), o, m)
  {
    var mutated := Spliced(original, span, replacement);
    assert |o.header| == |m.header|;
    var after := span.start + |replacement|;
    assert mutated[after..] == original[span.end..];
    assert forall k :: span.end <= k <= |original| ==> mutated[k + (|mutated| - |original|)..] == original[k..];
  }

  // ---- The decision, told of the nodes ----

  predicate InBody(span: Span, body: SyntaxNode) {
    body.start <= span.start && span.end <= if body.kind == BLOCK then body.end - 1 else body.end
  }

  // A function around the edit that holds it in its body, a block's closing brace aside.
  ghost predicate Holds(file: SourceFile, span: Span, node: SyntaxNode, body: SyntaxNode) {
    Around(file.tree.children, span, node, body) && InBody(span, body)
  }

  function HeaderOf(text: string, node: SyntaxNode, body: SyntaxNode): string {
    if 0 <= node.start <= body.start <= |text| then text[node.start..body.start] else ""
  }

  // One declared function before and after: of one kind, at one place, reading the same up to its body.
  ghost predicate Twins(
      original: SourceFile, mutated: SourceFile, span: Span, after: Span,
      node: SyntaxNode, body: SyntaxNode, node': SyntaxNode, body': SyntaxNode)
  {
    && Holds(original, span, node, body) && IsDeclared(node)
    && Around(mutated.tree.children, after, node', body') && IsDeclared(node')
    && node.kind == node'.kind && node.start == node'.start
    && HeaderOf(original.text, node, body) == HeaderOf(mutated.text, node', body')
  }

  // And the edit stays in its body, which grows as the edit does.
  ghost predicate Admitted(
      original: SourceFile, mutated: SourceFile, span: Span, after: Span,
      node: SyntaxNode, body: SyntaxNode, node': SyntaxNode, body': SyntaxNode)
  {
    && Twins(original, mutated, span, after, node, body, node', body') && InBody(after, body')
    && body'.end - body'.start == body.end - body.start + ((after.end - after.start) - (span.end - span.start))
  }

  ghost predicate TouchesReference(file: SourceFile, span: Span) {
    exists node ::
      && Inside(file.tree.children, node) && RefersToModule(node, file.text)
      && node.start <= span.end && span.start <= node.end
  }

  ghost predicate SomeHolds(file: SourceFile, span: Span) {
    exists node, body :: Holds(file, span, node, body)
  }

  ghost predicate SomeDeclaredHolds(file: SourceFile, span: Span) {
    exists node, body :: Holds(file, span, node, body) && IsDeclared(node)
  }

  ghost predicate SomeTwins(original: SourceFile, mutated: SourceFile, span: Span, after: Span) {
    exists node, body, node', body' :: Twins(original, mutated, span, after, node, body, node', body')
  }

  ghost predicate SomeAdmitted(original: SourceFile, mutated: SourceFile, span: Span, after: Span) {
    exists node, body, node', body' :: Admitted(original, mutated, span, after, node, body, node', body')
  }

  // What sends the importers to be re-checked, in the order it is asked, told of the nodes of the two trees.
  ghost function ClausesOf(
      original: SourceFile, mutated: SourceFile, span: Span, after: Span,
      originalErrors: bool, mutatedErrors: bool, compiledElsewhere: bool): (clauses: seq<Rule>)
    ensures |clauses| == 11
  {
    [
      Rule(OutsideFunctionBody, Original, !SomeHolds(original, span)),
      Rule(BodyDependentSignature, Original, !SomeDeclaredHolds(original, span)),
      Rule(NotTypescriptModule, Original, !original.typescriptModule || original.declaresGlobal),
      Rule(ModuleReference, Original, TouchesReference(original, span)),
      Rule(SyntaxError, Original, originalErrors),
      Rule(SharedFile, Original, compiledElsewhere),
      Rule(NotTypescriptModule, Mutated, !mutated.typescriptModule || mutated.declaresGlobal),
      Rule(ModuleReference, Mutated, TouchesReference(mutated, after)),
      Rule(SyntaxError, Mutated, mutatedErrors),
      Rule(BodyDependentSignature, Mutated, !SomeTwins(original, mutated, span, after)),
      Rule(OutsideFunctionBody, Mutated, !SomeAdmitted(original, mutated, span, after))
    ]
  }

  lemma {:induction false} BodiesHold(file: SourceFile, span: Span, errors: bool)
    ensures BodiesContaining(SiteFacts(file, span, errors)) != [] <==> SomeHolds(file, span)
  {
    var bodies := BodiesContaining(SiteFacts(file, span, errors));
    if bodies != [] {
      assert bodies[0] in bodies;
      var node, body := NodeOf(file, span, errors, bodies[0]);
      assert Holds(file, span, node, body);
    }
    if node, body :| Holds(file, span, node, body) {
      var facts := FactsAt(file, span, errors, node, body);
    }
  }

  lemma {:induction false} IndependentHold(file: SourceFile, span: Span, errors: bool)
    ensures BodyIndependentOf(BodiesContaining(SiteFacts(file, span, errors))) != [] <==> SomeDeclaredHolds(file, span)
  {
    var bodies := BodyIndependentOf(BodiesContaining(SiteFacts(file, span, errors)));
    if bodies != [] {
      assert bodies[0] in bodies && bodies[0] in BodiesContaining(SiteFacts(file, span, errors));
      var node, body := NodeOf(file, span, errors, bodies[0]);
      assert Holds(file, span, node, body);
    }
    if node, body :| Holds(file, span, node, body) && IsDeclared(node) {
      var facts := FactsAt(file, span, errors, node, body);
    }
  }

  // The function the facts of a site describe, and the facts that describe a function.
  lemma NodeOf(file: SourceFile, span: Span, errors: bool, facts: FunctionLikeFacts)
    returns (node: SyntaxNode, body: SyntaxNode)
    requires facts in SiteFacts(file, span, errors).enclosing
    ensures Around(file.tree.children, span, node, body) && Describes(facts, node, body, file.text)
    ensures SpanInsideBody(SiteFacts(file, span, errors).span, facts) <==> InBody(span, body)
  {
    EnclosingAreNodes(file.tree.children, file.text, span, facts);
    node, body :| Around(file.tree.children, span, node, body) && Describes(facts, node, body, file.text);
  }

  lemma FactsAt(file: SourceFile, span: Span, errors: bool, node: SyntaxNode, body: SyntaxNode)
    returns (facts: FunctionLikeFacts)
    requires Around(file.tree.children, span, node, body)
    ensures facts in SiteFacts(file, span, errors).enclosing && Describes(facts, node, body, file.text)
    ensures InBody(span, body) <==> facts in BodiesContaining(SiteFacts(file, span, errors))
    ensures InBody(span, body) && IsDeclared(node) <==>
      facts in BodyIndependentOf(BodiesContaining(SiteFacts(file, span, errors)))
  {
    facts := FunctionLikeFacts(node.kind, node.start, body.start, body.end, body.kind == BLOCK,
      HeaderOf(file.text, node, body), IsDeclared(node));
    EnclosingAreNodes(file.tree.children, file.text, span, facts);
  }

  // A pair of facts that match, as the nodes they describe.
  lemma {:induction false} PairIsTwins(
      original: SourceFile, mutated: SourceFile, span: Span, after: Span, errors: bool, errors': bool, pair: Pair)
    returns (node: SyntaxNode, body: SyntaxNode, node': SyntaxNode, body': SyntaxNode)
    requires pair.original in BodyIndependentOf(BodiesContaining(SiteFacts(original, span, errors)))
    requires pair.mutated in SiteFacts(mutated, after, errors').enclosing && MatchesMutated(pair.original, pair.mutated)
    ensures Twins(original, mutated, span, after, node, body, node', body')
    ensures Describes(pair.original, node, body, original.text) && Describes(pair.mutated, node', body', mutated.text)
  {
    assert pair.original in BodiesContaining(SiteFacts(original, span, errors));
    node, body := NodeOf(original, span, errors, pair.original);
    node', body' := NodeOf(mutated, after, errors', pair.mutated);
  }

  lemma {:induction false} TwinsArePair(
      original: SourceFile, mutated: SourceFile, span: Span, after: Span, errors: bool, errors': bool,
      node: SyntaxNode, body: SyntaxNode, node': SyntaxNode, body': SyntaxNode)
    returns (pair: Pair)
    requires Twins(original, mutated, span, after, node, body, node', body')
    ensures pair.original in BodyIndependentOf(BodiesContaining(SiteFacts(original, span, errors)))
    ensures pair.mutated in SiteFacts(mutated, after, errors').enclosing && MatchesMutated(pair.original, pair.mutated)
    ensures Describes(pair.original, node, body, original.text) && Describes(pair.mutated, node', body', mutated.text)
  {
    var o := FactsAt(original, span, errors, node, body);
    var m := FactsAt(mutated, after, errors', node', body');
    pair := Pair(o, m);
  }

  // The pairs of a command.
  function PairsOf(command: Command): seq<Pair> {
    MatchedPairs(BodyIndependentOf(BodiesContaining(command.original)), command.mutated.enclosing)
  }

  lemma {:induction false} PairsAreTwins(
      original: SourceFile, mutated: SourceFile, span: Span, after: Span,
      errors: bool, errors': bool, command: Command)
    requires command.original == SiteFacts(original, span, errors)
    requires command.mutated == SiteFacts(mutated, after, errors')
    ensures PairsOf(command) != [] <==> SomeTwins(original, mutated, span, after)
  {
    var pairs := PairsOf(command);
    if pairs != [] {
      assert pairs[0] in pairs;
      var node, body, node', body' := PairIsTwins(original, mutated, span, after, errors, errors', pairs[0]);
    }
    if node, body, node', body' :| Twins(original, mutated, span, after, node, body, node', body') {
      var pair := TwinsArePair(original, mutated, span, after, errors, errors', node, body, node', body');
      assert pair in pairs;
    }
  }

  lemma {:induction false} AdmittingAreAdmitted(
      original: SourceFile, mutated: SourceFile, span: Span, after: Span,
      errors: bool, errors': bool, command: Command)
    requires command.original == SiteFacts(original, span, errors)
    requires command.mutated == SiteFacts(mutated, after, errors')
    ensures (exists pair <- PairsOf(command) :: PairAdmitsShortcut(command, pair))
      <==> SomeAdmitted(original, mutated, span, after)
  {
    if pair :| pair in PairsOf(command) && PairAdmitsShortcut(command, pair) {
      var node, body, node', body' := PairIsTwins(original, mutated, span, after, errors, errors', pair);
      assert Admitted(original, mutated, span, after, node, body, node', body');
    }
    if node, body, node', body' :| Admitted(original, mutated, span, after, node, body, node', body') {
      var pair := TwinsArePair(original, mutated, span, after, errors, errors', node, body, node', body');
      assert pair in PairsOf(command) && PairAdmitsShortcut(command, pair);
    }
  }

  lemma {:induction false} FirstFailingAt(rules: seq<Rule>, i: nat)
    requires i < |rules| && rules[i].fails && forall j :: 0 <= j < i ==> !rules[j].fails
    ensures FirstFailing(rules) == ImportersRechecked(rules[i].clause, rules[i].tree)
  {
    if i > 0 {
      FirstFailingAt(rules[1..], i - 1);
    }
  }

  lemma {:induction false} SiteClauses(file: SourceFile, span: Span, errors: bool)
    ensures
      var site := SiteFacts(file, span, errors);
      && (BodiesContaining(site) == [] <==> !SomeHolds(file, span))
      && (BodyIndependentOf(BodiesContaining(site)) == [] <==> !SomeDeclaredHolds(file, span))
      && (site.moduleReference <==> TouchesReference(file, span))
  {
    BodiesHold(file, span, errors);
    IndependentHold(file, span, errors);
    ReferencesAreNodes(file.tree.children, file.text, span);
  }

  lemma {:induction false} RulesAreClauses(
      original: SourceFile, mutated: SourceFile, span: Span, after: Span,
      originalErrors: bool, mutatedErrors: bool, compiledElsewhere: bool, command: Command)
    requires command == Command(
      SiteFacts(original, span, originalErrors), SiteFacts(mutated, after, mutatedErrors), compiledElsewhere)
    ensures RulesOf(command)
      == ClausesOf(original, mutated, span, after, originalErrors, mutatedErrors, compiledElsewhere)
  {
    SiteClauses(original, span, originalErrors);
    SiteClauses(mutated, after, mutatedErrors);
    PairsAreTwins(original, mutated, span, after, originalErrors, mutatedErrors, command);
    AdmittingAreAdmitted(original, mutated, span, after, originalErrors, mutatedErrors, command);
  }

  /** The decision on an edit, for every tree before and after it: the importers are re-checked for the first clause
      that fails, in the tree it fails in, and the shortcut is taken exactly when none does. */
  lemma {:induction false} DecisionIsExact(
      original: SourceFile, mutated: SourceFile, span: Span, replacement: string,
      originalErrors: bool, mutatedErrors: bool, compiledElsewhere: bool)
    ensures
      var decision := AdmitImporterShortcut(
        CommandOf(original, mutated, span, replacement, originalErrors, mutatedErrors, compiledElsewhere));
      var clauses := ClausesOf(
        original, mutated, span, Replaced(span, replacement), originalErrors, mutatedErrors, compiledElsewhere);
      && (decision == ShortcutTaken <==> forall i :: 0 <= i < 11 ==> !clauses[i].fails)
      && forall i :: 0 <= i < 11 && clauses[i].fails && (forall j :: 0 <= j < i ==> !clauses[j].fails) ==>
           decision == ImportersRechecked(clauses[i].clause, clauses[i].tree)
  {
    var command := CommandOf(original, mutated, span, replacement, originalErrors, mutatedErrors, compiledElsewhere);
    RulesAreClauses(original, mutated, span, Replaced(span, replacement),
      originalErrors, mutatedErrors, compiledElsewhere, command);
    var rules := RulesOf(command);
    NoneFails(rules);
    forall i | 0 <= i < 11 && rules[i].fails && forall j :: 0 <= j < i ==> !rules[j].fails
      ensures FirstFailing(rules) == ImportersRechecked(rules[i].clause, rules[i].tree)
    {
      FirstFailingAt(rules, i);
    }
  }

  // ---- What taking it means for the texts ----

  // Trees a parser gives: nested in order in their text, a function's body inside it.
  ghost predicate ParsedFrom(file: SourceFile) {
    WellFormedFile(file) && BodiesInNodes(file.tree.children)
  }

  // The texts agree outside the two bodies, and on a block's closing brace.
  ghost predicate SameOutside(
      original: string, mutated: string, node: SyntaxNode, body: SyntaxNode, node': SyntaxNode, body': SyntaxNode)
  {
    && 0 <= node.start <= body.start <= body.end <= |original|
    && body.start == body'.start <= body'.end <= |mutated| && body'.end - body.end == |mutated| - |original|
    && original[..body.start] == mutated[..body.start] && original[body.end..] == mutated[body'.end..]
    && (body.kind == BLOCK || body'.kind == BLOCK ==>
          body.start < body.end && body'.start < body'.end && original[body.end - 1] == mutated[body'.end - 1])
  }

  lemma {:induction false} DescribedInText(file: SourceFile, span: Span, node: SyntaxNode, body: SyntaxNode)
    returns (facts: FunctionLikeFacts)
    requires ParsedFrom(file) && Around(file.tree.children, span, node, body)
    ensures Describes(facts, node, body, file.text) && InText(facts, file.text)
  {
    facts := FactsAt(file, span, false, node, body);
    NotedInText(file.tree.children, file.text, span, facts, 0, |file.text|);
  }

  lemma {:induction false} AdmittedIsSound(
      original: SourceFile, mutated: SourceFile, span: Span, replacement: string,
      node: SyntaxNode, body: SyntaxNode, node': SyntaxNode, body': SyntaxNode)
    requires 0 <= span.start <= span.end <= |original.text|
    requires mutated.text == Spliced(original.text, span, replacement) && ParsedFrom(original) && ParsedFrom(mutated)
    requires Admitted(original, mutated, span, Replaced(span, replacement), node, body, node', body')
    ensures SameOutside(original.text, mutated.text, node, body, node', body')
  {
    var o := DescribedInText(original, span, node, body);
    var m := DescribedInText(mutated, Replaced(span, replacement), node', body');
    AdmittedSameOutside(original.text, span, replacement, o, m);
  }

  /** If the shortcut is taken for a parsed source and its mutation, then some function holds the edit in its body,
      with a declared type or a setter, that is in both trees, of one kind and at one place, and the texts agree
      everywhere outside its body, as on the closing brace of a block. */
  lemma {:induction false} ShortcutIsSound(
      original: SourceFile, mutated: SourceFile, span: Span, replacement: string,
      originalErrors: bool, mutatedErrors: bool, compiledElsewhere: bool)
    requires 0 <= span.start <= span.end <= |original.text|
    requires mutated.text == Spliced(original.text, span, replacement) && ParsedFrom(original) && ParsedFrom(mutated)
    requires AdmitImporterShortcut(
      CommandOf(original, mutated, span, replacement, originalErrors, mutatedErrors, compiledElsewhere))
        == ShortcutTaken
    ensures exists node, body, node', body' ::
      && Twins(original, mutated, span, Replaced(span, replacement), node, body, node', body')
      && SameOutside(original.text, mutated.text, node, body, node', body')
  {
    DecisionIsExact(original, mutated, span, replacement, originalErrors, mutatedErrors, compiledElsewhere);
    var clauses := ClausesOf(
      original, mutated, span, Replaced(span, replacement), originalErrors, mutatedErrors, compiledElsewhere);
    assert !clauses[10].fails;
    var node, body, node', body' :|
      Admitted(original, mutated, span, Replaced(span, replacement), node, body, node', body');
    AdmittedIsSound(original, mutated, span, replacement, node, body, node', body');
  }
}
