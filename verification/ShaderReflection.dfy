/**
 Reflection names: which nodes hold one, when finding them fails, and that the canonical texts do not depend on
 what the names are.
 */
module ShaderReflection {
  import opened Common
  import opened ShaderIr
  import opened ShaderSuccess

  // ---------------------------------------------------------------- which nodes hold a name

  predicate ListOf(m: Module, f: Field, fields: seq<Field>) {
    if f.Inline? then f.fields == fields
    else f.Reference? && f.node in m.nodes && m.nodes[f.node] == List(fields)
  }

  predicate HasList(m: Module, f: Field) {
    f.Inline? || (f.Reference? && f.node in m.nodes && m.nodes[f.node].List?)
  }

  lemma MetadataListIs(m: Module, f: Field)
    ensures MetadataList(m, f).Some? <==> HasList(m, f)
    ensures HasList(m, f) ==> ListOf(m, f, MetadataList(m, f).value)
    ensures forall fields :: ListOf(m, f, fields) ==> MetadataList(m, f) == Some(fields)
  {
  }

  /** The groups of a resources tuple that are there are lists. */
  ghost predicate GroupsResolve(m: Module, groups: seq<Field>) {
    forall g :: g in groups && !g.NullField? ==> HasList(m, g)
  }

  ghost predicate TuplesResolve(m: Module, tuples: seq<Field>, entryPoints: bool) {
    forall t :: t in tuples ==> HasList(m, t) && (!entryPoints ==> TupleResolves(m, t))
  }

  ghost predicate TupleResolves(m: Module, t: Field) {
    forall fields :: ListOf(m, t, fields) ==> GroupsResolve(m, fields)
  }

  /** The resource and entry point roots are lists of lists, and the former's groups are lists too. */
  ghost predicate RootsResolve(m: Module, roots: seq<Root>) {
    forall r :: r in roots ==> RootResolves(m, r)
  }

  ghost predicate RootResolves(m: Module, r: Root) {
    r.name == "dx.resources" || r.name == "dx.entryPoints" ==>
      r.body.List? && TuplesResolve(m, r.body.fields, r.name == "dx.entryPoints")
  }

  /** A resource is referenced by a group of a tuple of dx.resources. */
  ghost predicate InGroups(m: Module, groups: seq<Field>, node: string) {
    exists g, fields :: g in groups && !g.NullField? && ListOf(m, g, fields) && Reference(node) in fields
  }

  ghost predicate InTuples(m: Module, tuples: seq<Field>, entryPoints: bool, node: string) {
    if entryPoints then Reference(node) in tuples
    else exists t, groups :: t in tuples && ListOf(m, t, groups) && InGroups(m, groups, node)
  }

  ghost predicate EntryPoint(roots: seq<Root>, node: string) {
    exists r :: r in roots && r.name == "dx.entryPoints" && r.body.List? && Reference(node) in r.body.fields
  }

  ghost predicate Resource(m: Module, roots: seq<Root>, node: string) {
    exists r :: r in roots && r.name == "dx.resources" && r.body.List? && InTuples(m, r.body.fields, false, node)
  }

  /** `after` has the marks of `before`, and of the new nodes those that `fresh` allows. */
  ghost predicate Marked(before: map<string, nat>, after: map<string, nat>, node: string, found: bool, position: nat) {
    if node in before then node in after && after[node] == before[node]
    else (node in after <==> found) && (found ==> after[node] == position)
  }

  lemma {:induction false} MarkAllIs(reflected: map<string, nat>, fields: seq<Field>, position: nat, node: string)
    ensures Marked(reflected, MarkAll(reflected, fields, position), node, Reference(node) in fields, position)
    decreases |fields|
  {
    if fields != [] {
      var next := if fields[0].Reference? then Emplace(reflected, fields[0].node, position) else reflected;
      MarkAllIs(next, fields[1..], position, node);
      assert fields == [fields[0]] + fields[1..];
    }
  }

  lemma GroupsFirst(m: Module, groups: seq<Field>, node: string)
    requires groups != []
    ensures InGroups(m, groups, node) <==>
              (!groups[0].NullField? && exists fields :: ListOf(m, groups[0], fields) && Reference(node) in fields)
              || InGroups(m, groups[1..], node)
    ensures GroupsResolve(m, groups) <==> (groups[0].NullField? || HasList(m, groups[0])) && GroupsResolve(m, groups[1..])
  {
    assert groups == [groups[0]] + groups[1..];
  }

  lemma {:induction false} MarkGroupsIs(m: Module, reflected: map<string, nat>, groups: seq<Field>, node: string)
    ensures MarkGroups(m, reflected, groups).Some? <==> GroupsResolve(m, groups)
    ensures GroupsResolve(m, groups) ==> Marked(reflected, MarkGroups(m, reflected, groups).value, node, InGroups(m, groups, node), 2)
    decreases |groups|
  {
    if groups != [] {
      GroupsFirst(m, groups, node);
      MetadataListIs(m, groups[0]);
      if groups[0].NullField? {
        MarkGroupsIs(m, reflected, groups[1..], node);
      } else if HasList(m, groups[0]) {
        var fields := MetadataList(m, groups[0]).value;
        MarkAllIs(reflected, fields, 2, node);
        MarkGroupsIs(m, MarkAll(reflected, fields, 2), groups[1..], node);
      }
    }
  }

  lemma TuplesFirst(m: Module, tuples: seq<Field>, entryPoints: bool, node: string)
    requires tuples != []
    ensures InTuples(m, tuples, entryPoints, node) <==>
              (if entryPoints then tuples[0] == Reference(node)
               else exists groups :: ListOf(m, tuples[0], groups) && InGroups(m, groups, node))
              || InTuples(m, tuples[1..], entryPoints, node)
    ensures TuplesResolve(m, tuples, entryPoints) <==>
              HasList(m, tuples[0]) && (!entryPoints ==> TupleResolves(m, tuples[0])) && TuplesResolve(m, tuples[1..], entryPoints)
  {
    assert tuples == [tuples[0]] + tuples[1..];
  }

  lemma {:induction false} MarkTuplesIs(m: Module, reflected: map<string, nat>, tuples: seq<Field>, entryPoints: bool, node: string)
    ensures MarkTuples(m, reflected, tuples, entryPoints).Some? <==> TuplesResolve(m, tuples, entryPoints)
    ensures TuplesResolve(m, tuples, entryPoints) ==>
              Marked(reflected, MarkTuples(m, reflected, tuples, entryPoints).value, node, InTuples(m, tuples, entryPoints, node),
                     if entryPoints then 1 else 2)
    decreases |tuples|
  {
    if tuples != [] {
      TuplesFirst(m, tuples, entryPoints, node);
      MetadataListIs(m, tuples[0]);
      if HasList(m, tuples[0]) {
        var fields := MetadataList(m, tuples[0]).value;
        if entryPoints {
          MarkAllIs(reflected, [tuples[0]], 1, node);
          MarkTuplesIs(m, MarkAll(reflected, [tuples[0]], 1), tuples[1..], entryPoints, node);
        } else {
          MarkGroupsIs(m, reflected, fields, node);
          assert TupleResolves(m, tuples[0]) <==> GroupsResolve(m, fields);
          if GroupsResolve(m, fields) {
            MarkTuplesIs(m, MarkGroups(m, reflected, fields).value, tuples[1..], entryPoints, node);
          }
        }
      }
    }
  }

  /** How the roots mark a node: not at all, or at the position of the first kind of root that lists it. */
  ghost predicate MarkedByRoots(m: Module, before: map<string, nat>, after: map<string, nat>, roots: seq<Root>, node: string) {
    if node in before then node in after && after[node] == before[node]
    else
      && (node in after <==> EntryPoint(roots, node) || Resource(m, roots, node))
      && (node in after ==> (after[node] == 1 && EntryPoint(roots, node)) || (after[node] == 2 && Resource(m, roots, node)))
  }

  lemma RootsFirst(m: Module, roots: seq<Root>, node: string)
    requires roots != []
    ensures EntryPoint(roots, node) <==> EntryPoint([roots[0]], node) || EntryPoint(roots[1..], node)
    ensures Resource(m, roots, node) <==> Resource(m, [roots[0]], node) || Resource(m, roots[1..], node)
    ensures RootsResolve(m, roots) <==> RootResolves(m, roots[0]) && RootsResolve(m, roots[1..])
  {
    assert roots == [roots[0]] + roots[1..];
    assert forall r :: r in roots <==> r == roots[0] || r in roots[1..];
  }

  /** Finding the reflection names fails exactly when the roots do not resolve, and finds the nodes that they list. */
  lemma {:induction false} MarkRootsIs(m: Module, reflected: map<string, nat>, roots: seq<Root>, node: string)
    ensures MarkRoots(m, reflected, roots).Some? <==> RootsResolve(m, roots)
    ensures RootsResolve(m, roots) ==> MarkedByRoots(m, reflected, MarkRoots(m, reflected, roots).value, roots, node)
    decreases |roots|
  {
    if roots != [] {
      var root := roots[0];
      RootsFirst(m, roots, node);
      OneRoot(m, root, node);
      if root.name != "dx.resources" && root.name != "dx.entryPoints" {
        MarkRootsIs(m, reflected, roots[1..], node);
      } else if root.body.List? {
        var entries := root.name == "dx.entryPoints";
        MarkTuplesIs(m, reflected, root.body.fields, entries, node);
        if TuplesResolve(m, root.body.fields, entries) {
          MarkRootsIs(m, MarkTuples(m, reflected, root.body.fields, entries).value, roots[1..], node);
        }
      }
    }
  }

  lemma OneRoot(m: Module, root: Root, node: string)
    ensures EntryPoint([root], node) <==> root.name == "dx.entryPoints" && root.body.List? && InTuples(m, root.body.fields, true, node)
    ensures Resource(m, [root], node) <==> root.name == "dx.resources" && root.body.List? && InTuples(m, root.body.fields, false, node)
  {
    assert root in [root];
  }

  // ---------------------------------------------------------------- when the texts exist

  /** The module has both canonical texts exactly when its roots resolve and both texts succeed. */
  lemma CanonicalSucceeds(m: Module)
    ensures Canonical(m).Some? <==>
              && RootsResolve(m, m.roots)
              && var reflected := MarkRoots(m, map[], m.roots);
                 && reflected.Some? && Succeeds(m, reflected.value, m.targets + RootTexts(m.roots))
                 && Succeeds(m, reflected.value, InstructionTexts(m))
  {
    MarkRootsIs(m, map[], m.roots, "");
    var reflected := MarkRoots(m, map[], m.roots);
    if reflected.Some? {
      PropertiesSucceed(m, reflected.value);
      InstructionsSucceed(m, reflected.value);
    }
  }

  // ---------------------------------------------------------------- the names do not matter

  /** The same field, or both strings. */
  predicate Alike(f: Field, g: Field) {
    f == g || (f.Quoted? && g.Quoted?)
  }

  predicate AlikeLists(a: seq<Field>, b: seq<Field>) {
    |a| == |b| && forall i :: 0 <= i < |a| ==> Alike(a[i], b[i])
  }

  /** `n` has the nodes of `m`, but for the string that holds a reflection name. */
  predicate RenamedNode(m: Module, n: Module, reflected: map<string, nat>, name: string) {
    if name !in m.nodes then name !in n.nodes
    else
      name in n.nodes &&
      var body, other := m.nodes[name], n.nodes[name];
      if name in reflected && NodeOk(m, reflected, name) then
        && other.List? && |other.fields| == |body.fields| && other.fields[reflected[name]].Quoted?
        && forall i :: 0 <= i < |body.fields| && i != reflected[name] ==> other.fields[i] == body.fields[i]
      else other == body
  }

  /** `n` is `m` with other reflection names. */
  ghost predicate OtherNames(m: Module, n: Module, reflected: map<string, nat>) {
    && n == m.(nodes := n.nodes)
    && forall name :: RenamedNode(m, n, reflected, name)
  }

  ghost predicate SameList(a: Option<seq<Field>>, b: Option<seq<Field>>) {
    if a.None? then b.None? else b.Some? && AlikeLists(a.value, b.value)
  }

  lemma SameMetadataList(m: Module, n: Module, reflected: map<string, nat>, f: Field, g: Field)
    requires OtherNames(m, n, reflected) && Alike(f, g)
    ensures SameList(MetadataList(m, f), MetadataList(n, g))
  {
    if f.Reference? { assert RenamedNode(m, n, reflected, f.node); }
  }

  lemma {:induction false} SameMarkAll(marks: map<string, nat>, a: seq<Field>, b: seq<Field>, position: nat)
    requires AlikeLists(a, b)
    ensures MarkAll(marks, a, position) == MarkAll(marks, b, position)
    decreases |a|
  {
    if a != [] {
      assert Alike(a[0], b[0]);
      SameMarkAll(if a[0].Reference? then Emplace(marks, a[0].node, position) else marks, a[1..], b[1..], position);
    }
  }

  lemma {:induction false} SameMarkGroups(m: Module, n: Module, reflected: map<string, nat>, marks: map<string, nat>,
                                          a: seq<Field>, b: seq<Field>)
    requires OtherNames(m, n, reflected) && AlikeLists(a, b)
    ensures MarkGroups(m, marks, a) == MarkGroups(n, marks, b)
    decreases |a|
  {
    if a != [] {
      assert Alike(a[0], b[0]);
      SameMetadataList(m, n, reflected, a[0], b[0]);
      if a[0].NullField? {
        SameMarkGroups(m, n, reflected, marks, a[1..], b[1..]);
      } else if MetadataList(m, a[0]).Some? {
        var x, y := MetadataList(m, a[0]).value, MetadataList(n, b[0]).value;
        SameMarkAll(marks, x, y, 2);
        SameMarkGroups(m, n, reflected, MarkAll(marks, x, 2), a[1..], b[1..]);
      }
    }
  }

  lemma {:induction false} SameMarkTuples(m: Module, n: Module, reflected: map<string, nat>, marks: map<string, nat>,
                                          tuples: seq<Field>, entryPoints: bool)
    requires OtherNames(m, n, reflected)
    ensures MarkTuples(m, marks, tuples, entryPoints) == MarkTuples(n, marks, tuples, entryPoints)
    decreases |tuples|
  {
    if tuples != [] {
      SameMetadataList(m, n, reflected, tuples[0], tuples[0]);
      if MetadataList(m, tuples[0]).Some? {
        if entryPoints {
          SameMarkTuples(m, n, reflected, MarkAll(marks, [tuples[0]], 1), tuples[1..], entryPoints);
        } else {
          var x, y := MetadataList(m, tuples[0]).value, MetadataList(n, tuples[0]).value;
          SameMarkGroups(m, n, reflected, marks, x, y);
          if MarkGroups(m, marks, x).Some? {
            SameMarkTuples(m, n, reflected, MarkGroups(m, marks, x).value, tuples[1..], entryPoints);
          }
        }
      }
    }
  }

  lemma {:induction false} SameMarkRoots(m: Module, n: Module, reflected: map<string, nat>, marks: map<string, nat>, roots: seq<Root>)
    requires OtherNames(m, n, reflected)
    ensures MarkRoots(m, marks, roots) == MarkRoots(n, marks, roots)
    decreases |roots|
  {
    if roots != [] {
      var root := roots[0];
      if root.name != "dx.resources" && root.name != "dx.entryPoints" {
        SameMarkRoots(m, n, reflected, marks, roots[1..]);
      } else if root.body.List? {
        var entries := root.name == "dx.entryPoints";
        SameMarkTuples(m, n, reflected, marks, root.body.fields, entries);
        var x := MarkTuples(m, marks, root.body.fields, entries);
        if x.Some? { SameMarkRoots(m, n, reflected, x.value, roots[1..]); }
      }
    }
  }

  lemma SameBodyText(m: Module, n: Module, reflected: map<string, nat>, name: string)
    requires OtherNames(m, n, reflected) && name in m.nodes && name in n.nodes
    ensures BodyText(n, reflected, name) == BodyText(m, reflected, name)
  {
    assert RenamedNode(m, n, reflected, name);
    if name in reflected && NodeOk(m, reflected, name) {
      var k, a, b := reflected[name], m.nodes[name].fields, n.nodes[name].fields;
      assert a[k := Quoted("\"\"")] == b[k := Quoted("\"\"")];
    }
  }

  /** Rewriting reads types and attribute groups only. */
  ghost predicate SameText(m: Module, n: Module) {
    n.types == m.types && n.attributes == m.attributes
  }

  lemma {:induction false} SameRewrite(m: Module, n: Module, s: State, tokens: seq<Token>)
    requires SameText(m, n)
    ensures Rewrite(n, s, tokens) == Rewrite(m, s, tokens)
    decreases |m.types.Keys - s.active|, |tokens|, 0
  {
    if tokens != [] {
      SameRewriteToken(m, n, s, tokens[0]);
      SameRewrite(m, n, RewriteToken(m, s, tokens[0]).state, tokens[1..]);
    }
  }

  lemma {:induction false} SameRewriteToken(m: Module, n: Module, s: State, t: Token)
    requires SameText(m, n)
    ensures RewriteToken(n, s, t) == RewriteToken(m, s, t)
    decreases |m.types.Keys - s.active|, 0, 1
  {
    if t.Percent? && t.name in m.types { SameTypeLayout(m, n, s, t.name); }
  }

  lemma {:induction false} SameTypeLayout(m: Module, n: Module, s: State, name: string)
    requires SameText(m, n) && name in m.types
    ensures TypeLayout(n, s, name) == TypeLayout(m, s, name)
    decreases |m.types.Keys - s.active|, 0, 0
  {
    if name !in s.layouts && name !in s.active {
      OneMoreActive(m.types.Keys, s.active, name);
      SameRewrite(m, n, s.(active := s.active + {name}), m.types[name]);
    }
  }

  lemma {:induction false} SameRewriteAll(m: Module, n: Module, s: State, texts: seq<seq<Token>>)
    requires SameText(m, n)
    ensures RewriteAll(n, s, texts) == RewriteAll(m, s, texts)
    decreases |texts|
  {
    if texts != [] {
      SameRewrite(m, n, s, texts[0]);
      SameRewriteAll(m, n, Rewrite(m, s, texts[0]).state, texts[1..]);
    }
  }

  lemma {:induction false} SameRewriteCode(m: Module, n: Module, s: State, code: seq<Line>)
    requires SameText(m, n)
    ensures RewriteCode(n, s, code) == RewriteCode(m, s, code)
    decreases |code|
  {
    if code != [] {
      SameRewrite(m, n, AtLine(s, code[0]), code[0].tokens);
      SameRewriteCode(m, n, Rewrite(m, AtLine(s, code[0]), code[0].tokens).state, code[1..]);
    }
  }

  lemma {:induction false} SameRewriteDeclarations(m: Module, n: Module, s: State, all: seq<Declaration>)
    requires SameText(m, n)
    ensures RewriteDeclarations(n, s, all) == RewriteDeclarations(m, s, all)
    decreases |all|
  {
    if all != [] {
      SameRewrite(m, n, s, all[0].tokens);
      SameRewriteDeclarations(m, n, if all[0].declared in s.used then Rewrite(m, s, all[0].tokens).state else s, all[1..]);
    }
  }

  lemma {:induction false} SameFinish(m: Module, n: Module, reflected: map<string, nat>, s: State, index: nat)
    requires OtherNames(m, n, reflected) && Ready(m, s, index) && Ready(n, s, index)
    ensures Finish(n, reflected, s, index) == Finish(m, reflected, s, index)
    decreases |m.nodes.Keys| - index
  {
    if index < |s.metadata| {
      var name := s.metadata[index];
      assert RenamedNode(m, n, reflected, name);
      if name in m.nodes { SameBodyText(m, n, reflected, name); }
      if Work(m, reflected, s, index).None? {
        FinishStops(m, reflected, s, index);
        FinishStops(n, reflected, s, index);
      } else {
        FinishStep(m, reflected, s, index);
        FinishStep(n, reflected, s, index);
        SameRewrite(m, n, s, Work(m, reflected, s, index).value);
        SameFinish(m, n, reflected, Rewrite(m, s, Work(m, reflected, s, index).value).state, index + 1);
      }
    }
  }

  lemma SameProperties(m: Module, n: Module, reflected: map<string, nat>)
    requires OtherNames(m, n, reflected)
    ensures Properties(n, reflected) == Properties(m, reflected)
  {
    var texts := m.targets + RootTexts(m.roots);
    SameRewriteAll(m, n, INITIAL, texts);
    RewriteAllKeepsNodes(m, INITIAL, texts);
    SameFinish(m, n, reflected, RewriteAll(m, INITIAL, texts).state, 0);
  }

  lemma SameInstructions(m: Module, n: Module, reflected: map<string, nat>)
    requires OtherNames(m, n, reflected)
    ensures Instructions(n, reflected) == Instructions(m, reflected)
  {
    var s := RewriteCode(m, INITIAL, m.code).state;
    SameRewriteCode(m, n, INITIAL, m.code);
    RewriteCodeKeepsNodes(m, INITIAL, m.code);
    SameRewriteDeclarations(m, n, s, m.declarations);
    RewriteDeclarationsKeepsNodes(m, s, m.declarations);
    SameFinish(m, n, reflected, RewriteDeclarations(m, s, m.declarations).state, 0);
  }

  /** Modules that differ in reflection names only have the same canonical texts, or none. */
  lemma ReflectionNamesDoNotMatter(m: Module, n: Module)
    requires MarkRoots(m, map[], m.roots).Some? && OtherNames(m, n, MarkRoots(m, map[], m.roots).value)
    ensures Canonical(n) == Canonical(m)
  {
    var reflected := MarkRoots(m, map[], m.roots).value;
    SameMarkRoots(m, n, reflected, map[], m.roots);
    SameProperties(m, n, reflected);
    SameInstructions(m, n, reflected);
  }

  // ---------------------------------------------------------------- the roots that show

  /** The properties text shows the roots whose name begins with `dx.`, but for five kinds that say nothing of execution. */
  predicate Shown(name: string) {
    && |name| >= 3 && name[..3] == "dx."
    && name !in ["dx.valver", "dx.typeAnnotations", "dx.counters"]
    && !(|name| >= 10 && name[..10] == "dx.source.") && !(|name| >= 7 && name[..7] == "dx.dbg.")
  }

  function ShownRoots(roots: seq<Root>): seq<Root> {
    Filter((r: Root) => Shown(r.name), roots)
  }

  /** One line for each of them, in order, with its name and its body. */
  lemma {:induction false} RootTextsAre(roots: seq<Root>)
    ensures
      var shown, texts := ShownRoots(roots), RootTexts(roots);
      |texts| == |shown| && forall i :: 0 <= i < |texts| ==> texts[i] == [Text("!" + shown[i].name + "=")] + BodyTokens(shown[i].body)
  {
    if roots != [] {
      RootTextsAre(roots[1..]);
      assert ExecutionRoot(roots[0].name) <==> Shown(roots[0].name);
    }
  }

  // ---------------------------------------------------------------- what a body says

  /** Names and strings, as opposed to the punctuation around them. */
  predicate IsWord(t: Token) {
    !t.Text? || (t.text != "" && t.text[0] == '"')
  }

  function Words(tokens: seq<Token>): seq<Token> {
    Filter(IsWord, tokens)
  }

  /** The words of a field: the node it references, its string, or those of its parts in order. */
  function FieldWords(f: Field): seq<Token> {
    match f
    case Reference(node) => [Bang(node)]
    case Quoted(text) => Words([Text(text)])
    case NullField => []
    case Inline(fields) => ListWords(fields)
    case Plain(tokens) => Words(tokens)
  }

  function ListWords(fields: seq<Field>): seq<Token> {
    if fields == [] then [] else FieldWords(fields[0]) + ListWords(fields[1..])
  }

  lemma WordsOf(a: seq<Token>, b: seq<Token>, c: seq<Token>)
    requires Words(a) == [] && Words(c) == []
    ensures Words(a + b + c) == Words(b)
  {
    FilterAppend(IsWord, a + b, c);
    FilterAppend(IsWord, a, b);
    assert [] + Words(b) + [] == Words(b);
  }

  lemma NotWord(text: string)
    requires text == "" || text[0] != '"'
    ensures Words([Text(text)]) == []
  {
    var tokens := [Text(text)];
    assert tokens[1..] == [] && !IsWord(tokens[0]);
    assert Words(tokens) == [] + Words(tokens[1..]);
  }

  lemma {:induction false} FieldWordsAre(f: Field)
    ensures Words(FieldTokens(f)) == FieldWords(f)
  {
    match f
    case Reference(node) =>
      var tokens := [Bang(node)];
      assert tokens[1..] == [] && IsWord(tokens[0]);
      assert Words(tokens) == [tokens[0]] + Words(tokens[1..]);
    case Quoted(text) =>
      NotWord("!");
      FilterAppend(IsWord, [Text("!")], [Text(text)]);
      assert [Text("!")] + [Text(text)] == FieldTokens(f) && [] + Words([Text(text)]) == Words([Text(text)]);
    case NullField => NotWord("null");
    case Inline(fields) =>
      ListWordsAre(fields);
      NotWord("!{");
      NotWord("}");
      WordsOf([Text("!{")], FieldsTokens(fields), [Text("}")]);
    case Plain(tokens) =>
  }

  lemma {:induction false} ListWordsAre(fields: seq<Field>)
    ensures Words(FieldsTokens(fields)) == ListWords(fields)
  {
    if fields != [] {
      FieldWordsAre(fields[0]);
      if |fields| == 1 {
        assert ListWords(fields[1..]) == [] && FieldWords(fields[0]) + [] == FieldWords(fields[0]);
      } else {
        ListWordsAre(fields[1..]);
        NotWord(", ");
        var first, rest := FieldTokens(fields[0]), FieldsTokens(fields[1..]);
        FilterAppend(IsWord, first + [Text(", ")], rest);
        FilterAppend(IsWord, first, [Text(", ")]);
        assert Words(first) + [] == Words(first);
      }
    }
  }

  /** A node's text has its words, all of them and in order. */
  lemma BodyWordsAre(body: Body)
    ensures Words(BodyTokens(body)) == if body.List? then ListWords(body.fields) else Words(body.tokens)
  {
    if body.List? {
      ListWordsAre(body.fields);
      NotWord("!{");
      NotWord("}");
      WordsOf([Text("!{")], FieldsTokens(body.fields), [Text("}")]);
    }
  }

  /** Globals of the compiler's own keep their names; no other does. */
  lemma IntrinsicsStay(m: Module, s: State, name: string)
    ensures RewriteToken(m, s, At(name)).out == [OIntrinsic(name)] <==>
              (|name| >= 6 && name[..6] == "dx.op.") || (|name| >= 5 && name[..5] == "llvm.")
  {
  }
}
