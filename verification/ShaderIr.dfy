/**
 The canonicaliser of disassembled DXIL (shader_ir.cpp) after line parsing. Text is a sequence of tokens:
 the identifiers that `rewrite` recognises, and everything else verbatim. Output numbers stay numbers
 rather than digits, and a sorted list is represented by the multiset that it sorts.
 */
module ShaderIr {
  import opened Common

  datatype Token =
    | Text(text: string)      // copied verbatim, quoted strings included
    | Percent(name: string)   // a local value, label or named type
    | At(name: string)        // a global
    | Bang(name: string)      // a numbered metadata node
    | Hash(name: string)      // an attribute group

  datatype Out =
    | OText(text: string)
    | OLocal(index: nat)
    | OGlobal(index: nat)
    | OMeta(index: nat)
    | OIntrinsic(name: string)
    | OAttributes(fields: multiset<string>)

  datatype Attributes = Malformed | Fields(fields: seq<string>)

  /** One field of a metadata list. */
  datatype Field =
    | Reference(node: string)
    | Quoted(text: string)
    | NullField
    | Inline(fields: seq<Field>)
    | Plain(tokens: seq<Token>)

  /** A metadata body: a list `!{...}` or anything else. */
  datatype Body = List(fields: seq<Field>) | Other(tokens: seq<Token>)

  datatype Root = Root(name: string, body: Body)

  /** A line of code. Text tokens are maximal, so a line that begins with `define ` begins with a token that does. */
  datatype Line = Line(tokens: seq<Token>)
  {
    predicate Begins() {
      tokens != [] && tokens[0].Text? && BeginsFunction(tokens[0].text)
    }
  }

  datatype Declaration = Declaration(declared: string, tokens: seq<Token>)

  datatype Module = Module(
    types: map<string, seq<Token>>, attributes: map<string, Attributes>, nodes: map<string, Body>,
    roots: seq<Root>, targets: seq<seq<Token>>, code: seq<Line>, declarations: seq<Declaration>)

  predicate BeginsFunction(text: string) {
    "define " <= text
  }

  predicate IsIntrinsic(name: string) {
    "dx.op." <= name || "llvm." <= name
  }

  /** Final DXIL uses dx.* execution roots; these exceptions are reflection or source data. */
  predicate ExecutionRoot(name: string) {
    "dx." <= name && name != "dx.valver" && name != "dx.typeAnnotations" && name != "dx.counters" &&
    !("dx.source." <= name) && !("dx.dbg." <= name)
  }

  // ---------------------------------------------------------------- metadata text

  function FieldTokens(f: Field): seq<Token> {
    match f
    case Reference(node) => [Bang(node)]
    case Quoted(text) => [Text("!"), Text(text)]
    case NullField => [Text("null")]
    case Inline(fields) => [Text("!{")] + FieldsTokens(fields) + [Text("}")]
    case Plain(tokens) => tokens
  }

  function FieldsTokens(fields: seq<Field>): seq<Token> {
    if fields == [] then []
    else if |fields| == 1 then FieldTokens(fields[0])
    else FieldTokens(fields[0]) + [Text(", ")] + FieldsTokens(fields[1..])
  }

  function BodyTokens(b: Body): seq<Token> {
    match b
    case List(fields) => [Text("!{")] + FieldsTokens(fields) + [Text("}")]
    case Other(tokens) => tokens
  }

  /** metadata_list (shader_ir.cpp:175-196): an inline list, or the list that a reference names. */
  function MetadataList(m: Module, f: Field): Option<seq<Field>> {
    match f
    case Inline(fields) => Some(fields)
    case Reference(node) =>
      if node in m.nodes && m.nodes[node].List? then Some(m.nodes[node].fields) else None
    case _ => None
  }

  // ---------------------------------------------------------------- reflected names

  function Emplace<V>(table: map<string, V>, key: string, value: V): map<string, V> {
    if key in table then table else table[key := value]
  }

  function MarkAll(reflected: map<string, nat>, fields: seq<Field>, position: nat): map<string, nat>
    decreases |fields|
  {
    if fields == [] then reflected
    else MarkAll(if fields[0].Reference? then Emplace(reflected, fields[0].node, position) else reflected,
                 fields[1..], position)
  }

  /** The resources of each non-null group of one dx.resources tuple. */
  function MarkGroups(m: Module, reflected: map<string, nat>, groups: seq<Field>): Option<map<string, nat>>
    decreases |groups|
  {
    if groups == [] then Some(reflected)
    else if groups[0].NullField? then MarkGroups(m, reflected, groups[1..])
    else
      match MetadataList(m, groups[0])
      case None => None
      case Some(resources) => MarkGroups(m, MarkAll(reflected, resources, 2), groups[1..])
  }

  function MarkTuples(m: Module, reflected: map<string, nat>, tuples: seq<Field>, entryPoints: bool)
    : Option<map<string, nat>>
    decreases |tuples|
  {
    if tuples == [] then Some(reflected)
    else
      match MetadataList(m, tuples[0])
      case None => None
      case Some(fields) =>
        if entryPoints then MarkTuples(m, MarkAll(reflected, [tuples[0]], 1), tuples[1..], entryPoints)
        else
          match MarkGroups(m, reflected, fields)
          case None => None
          case Some(marked) => MarkTuples(m, marked, tuples[1..], entryPoints)
  }

  /** mark_reflected_names (shader_ir.cpp:198-225): which field of which node is a reflection name. */
  function MarkRoots(m: Module, reflected: map<string, nat>, roots: seq<Root>): Option<map<string, nat>>
    decreases |roots|
  {
    if roots == [] then Some(reflected)
    else if roots[0].name != "dx.resources" && roots[0].name != "dx.entryPoints" then
      MarkRoots(m, reflected, roots[1..])
    else if roots[0].body.Other? then None
    else
      match MarkTuples(m, reflected, roots[0].body.fields, roots[0].name == "dx.entryPoints")
      case None => None
      case Some(marked) => MarkRoots(m, marked, roots[1..])
  }

  // ---------------------------------------------------------------- rewriting

  /** The mutable part of CanonicalText. */
  datatype State = State(
    locals: map<string, nat>, layouts: map<string, seq<Out>>, active: set<string>,
    globals: map<string, nat>, nodeIds: map<string, nat>, globalCount: nat, used: set<string>,
    metadata: seq<string>, valid: bool)

  const INITIAL: State := State(map[], map[], {}, map[], map[], 0, {}, [], true)

  datatype Written = Written(state: State, out: seq<Out>)

  /** `rewrite`: token by token, threading the state. Types still open bound the recursion. */
  function Rewrite(m: Module, s: State, tokens: seq<Token>): (w: Written)
    ensures w.state.active == s.active
    decreases |m.types.Keys - s.active|, |tokens|, 0
  {
    if tokens == [] then Written(s, [])
    else
      var first := RewriteToken(m, s, tokens[0]);
      var rest := Rewrite(m, first.state, tokens[1..]);
      Written(rest.state, first.out + rest.out)
  }

  /** `rename`. */
  function RewriteToken(m: Module, s: State, t: Token): (w: Written)
    ensures w.state.active == s.active
    decreases |m.types.Keys - s.active|, 0, 1
  {
    match t
    case Text(text) => Written(s, [OText(text)])
    case Hash(name) =>
      if name in m.attributes && m.attributes[name].Fields? then
        Written(s, [OAttributes(multiset(m.attributes[name].fields))])
      else Written(s.(valid := false), [])
    case At(name) =>
      var u := s.(used := s.used + {name});
      if IsIntrinsic(name) then Written(u, [OIntrinsic(name)])
      else if name in u.globals then Written(u, [OGlobal(u.globals[name])])
      else Written(u.(globals := u.globals[name := u.globalCount], globalCount := u.globalCount + 1),
                   [OGlobal(u.globalCount)])
    case Bang(name) =>
      if name in s.nodeIds then Written(s, [OMeta(s.nodeIds[name])])
      else Written(s.(nodeIds := s.nodeIds[name := |s.metadata|], metadata := s.metadata + [name]),
                   [OMeta(|s.metadata|)])
    case Percent(name) =>
      if name in m.types then TypeLayout(m, s, name)
      else if name in s.locals then Written(s, [OLocal(s.locals[name])])
      else Written(s.(locals := s.locals[name := |s.locals|]), [OLocal(|s.locals|)])
  }

  /** `type_layout`: the structural expansion of a named type, computed once. */
  function TypeLayout(m: Module, s: State, name: string): (w: Written)
    requires name in m.types
    ensures w.state.active == s.active
    decreases |m.types.Keys - s.active|, 0, 0
  {
    if name in s.layouts then Written(s, s.layouts[name])
    else if name in s.active then Written(s.(valid := false), [])
    else
      OneMoreActive(m.types.Keys, s.active, name);
      var w := Rewrite(m, s.(active := s.active + {name}), m.types[name]);
      Written(w.state.(active := w.state.active - {name}, layouts := Emplace(w.state.layouts, name, w.out)), w.out)
  }

  lemma OneMoreActive(types: set<string>, active: set<string>, name: string)
    requires name in types && name !in active
    ensures |types - (active + {name})| < |types - active|
    ensures (active + {name}) - {name} == active
  {
    assert types - active == (types - (active + {name})) + {name};
  }

  // ---------------------------------------------------------------- names

  ghost predicate Apart(f: map<string, string>, a: string, b: string) {
    a in f && b in f && f[a] == f[b] ==> a == b
  }

  /** Different names have different images. */
  ghost predicate OneToOne(f: map<string, string>) {
    forall a, b :: Apart(f, a, b)
  }

  // ---------------------------------------------------------------- what rewriting keeps

  /** Numbers are positions in the order of first use, which never repeats a name. */
  ghost predicate Numbered(ids: map<string, nat>, order: seq<string>) {
    && (forall name :: name in ids ==> ids[name] < |order| && order[ids[name]] == name)
    && (forall i :: 0 <= i < |order| ==> order[i] in ids && ids[order[i]] == i)
  }

  ghost predicate NodesNumbered(s: State) {
    Numbered(s.nodeIds, s.metadata)
  }

  lemma NumberNext(ids: map<string, nat>, order: seq<string>, name: string)
    requires Numbered(ids, order) && name !in ids
    ensures Numbered(ids[name := |order|], order + [name])
  {
  }

  ghost predicate NodesGrow(s: State, u: State) {
    NodesNumbered(u) && s.metadata <= u.metadata
  }

  lemma {:induction false} RewriteKeepsNodes(m: Module, s: State, tokens: seq<Token>)
    requires NodesNumbered(s)
    ensures NodesGrow(s, Rewrite(m, s, tokens).state)
    decreases |m.types.Keys - s.active|, |tokens|, 0
  {
    if tokens != [] {
      TokenKeepsNodes(m, s, tokens[0]);
      RewriteKeepsNodes(m, RewriteToken(m, s, tokens[0]).state, tokens[1..]);
    }
  }

  lemma {:induction false} TokenKeepsNodes(m: Module, s: State, t: Token)
    requires NodesNumbered(s)
    ensures NodesGrow(s, RewriteToken(m, s, t).state)
    decreases |m.types.Keys - s.active|, 0, 1
  {
    if t.Bang? && t.name !in s.nodeIds { NumberNext(s.nodeIds, s.metadata, t.name); }
    if t.Percent? && t.name in m.types { LayoutKeepsNodes(m, s, t.name); }
  }

  lemma {:induction false} LayoutKeepsNodes(m: Module, s: State, name: string)
    requires NodesNumbered(s) && name in m.types
    ensures NodesGrow(s, TypeLayout(m, s, name).state)
    decreases |m.types.Keys - s.active|, 0, 0
  {
    if name !in s.layouts && name !in s.active {
      OneMoreActive(m.types.Keys, s.active, name);
      RewriteKeepsNodes(m, s.(active := s.active + {name}), m.types[name]);
    }
  }

  // ---------------------------------------------------------------- the metadata worklist

  datatype Finished = Finished(state: State, lines: seq<seq<Out>>, ok: bool)

  /** A node's body with its reflection name blanked, or nothing when that name is missing. */
  function BodyText(m: Module, reflected: map<string, nat>, name: string): Option<seq<Token>>
    requires name in m.nodes
  {
    var body := m.nodes[name];
    if name !in reflected then Some(BodyTokens(body))
    else if body.Other? then None
    else if |body.fields| <= reflected[name] || !body.fields[reflected[name]].Quoted? then None
    else Some(BodyTokens(List(body.fields[reflected[name] := Quoted("\"\"")])))
  }

  /** `finish` from worklist position `index`. Each entry is a distinct node of the module, so it ends. */
  function Finish(m: Module, reflected: map<string, nat>, s: State, index: nat): Finished
    requires NodesNumbered(s) && index <= |s.metadata|
    requires forall i :: 0 <= i < index ==> s.metadata[i] in m.nodes
    decreases |m.nodes.Keys| - index
  {
    if index == |s.metadata| then Finished(s, [], s.valid)
    else
      var name := s.metadata[index];
      if name !in m.nodes then Finished(s.(valid := false), [], false)
      else
        match BodyText(m, reflected, name)
        case None => Finished(s.(valid := false), [], false)
        case Some(tokens) =>
          WorklistBound(m.nodes.Keys, s, index);
          RewriteKeepsNodes(m, s, tokens);
          var w := Rewrite(m, s, tokens);
          var rest := Finish(m, reflected, w.state, index + 1);
          rest.(lines := [w.out] + rest.lines)
  }

  /** The part of the worklist already found in the module is no longer than the module. */
  lemma WorklistBound(nodes: set<string>, s: State, index: nat)
    requires NodesNumbered(s) && index < |s.metadata|
    requires forall i :: 0 <= i <= index ==> s.metadata[i] in nodes
    ensures index < |nodes|
  {
    var seen := s.metadata[..index + 1];
    forall i, j | 0 <= i < j < |seen| ensures seen[i] != seen[j] {
      assert s.nodeIds[s.metadata[i]] == i && s.nodeIds[s.metadata[j]] == j;
    }
    DistinctBound(seen, nodes);
  }

  function Extend(lines: seq<seq<Out>>, rest: Finished): Finished {
    rest.(lines := lines + rest.lines)
  }

  lemma ExtendNothing(lines: seq<seq<Out>>, s: State, ok: bool)
    ensures Extend(lines, Finished(s, [], ok)) == Finished(s, lines, ok)
  {
    assert lines + [] == lines;
  }

  lemma ExtendTwice(a: seq<seq<Out>>, b: seq<seq<Out>>, rest: Finished)
    ensures Extend(a, Extend(b, rest)) == Extend(a + b, rest)
  {
    Associative(a, b, rest.lines);
  }

  /** `finish` may start at `index`. */
  ghost predicate Ready(m: Module, s: State, index: nat) {
    && NodesNumbered(s) && index <= |s.metadata|
    && forall i :: 0 <= i < index ==> s.metadata[i] in m.nodes
  }

  /** The text that `finish` writes at `index`, unless it fails there. */
  ghost function Work(m: Module, reflected: map<string, nat>, s: State, index: nat): Option<seq<Token>>
    requires index < |s.metadata|
  {
    if s.metadata[index] in m.nodes then BodyText(m, reflected, s.metadata[index]) else None
  }

  lemma FinishStops(m: Module, reflected: map<string, nat>, s: State, index: nat)
    requires Ready(m, s, index) && index < |s.metadata| && Work(m, reflected, s, index).None?
    ensures Finish(m, reflected, s, index) == Finished(s.(valid := false), [], false)
  {
  }

  lemma FinishStep(m: Module, reflected: map<string, nat>, s: State, index: nat)
    requires Ready(m, s, index) && index < |s.metadata| && Work(m, reflected, s, index).Some?
    ensures
      var w := Rewrite(m, s, Work(m, reflected, s, index).value);
      && Ready(m, w.state, index + 1) && index < |m.nodes.Keys|
      && Finish(m, reflected, s, index) == Extend([w.out], Finish(m, reflected, w.state, index + 1))
  {
    var tokens := Work(m, reflected, s, index).value;
    WorklistBound(m.nodes.Keys, s, index);
    RewriteKeepsNodes(m, s, tokens);
    assert forall i :: 0 <= i <= index ==> Rewrite(m, s, tokens).state.metadata[i] == s.metadata[i];
  }

  // ---------------------------------------------------------------- whole modules

  datatype Lines = Lines(state: State, lines: seq<seq<Out>>)

  function RewriteAll(m: Module, s: State, texts: seq<seq<Token>>): Lines
    decreases |texts|
  {
    if texts == [] then Lines(s, [])
    else
      var w := Rewrite(m, s, texts[0]);
      var rest := RewriteAll(m, w.state, texts[1..]);
      rest.(lines := [w.out] + rest.lines)
  }

  function RootTexts(roots: seq<Root>): seq<seq<Token>> {
    if roots == [] then []
    else (if ExecutionRoot(roots[0].name) then [[Text("!" + roots[0].name + "=")] + BodyTokens(roots[0].body)] else [])
         + RootTexts(roots[1..])
  }

  /** A `define` line starts a function: local numbers begin again. */
  function AtLine(s: State, line: Line): State {
    if line.Begins() then s.(locals := map[]) else s
  }

  /** How many functions start in `code`. */
  function Defines(code: seq<Line>): nat {
    if code == [] then 0 else (if code[0].Begins() then 1 else 0) + Defines(code[1..])
  }

  function RewriteCode(m: Module, s: State, code: seq<Line>): Lines
    decreases |code|
  {
    if code == [] then Lines(s, [])
    else
      var w := Rewrite(m, AtLine(s, code[0]), code[0].tokens);
      var rest := RewriteCode(m, w.state, code[1..]);
      rest.(lines := [w.out] + rest.lines)
  }

  /** Only declarations of globals that the code uses are kept. */
  function RewriteDeclarations(m: Module, s: State, declarations: seq<Declaration>): Lines
    decreases |declarations|
  {
    if declarations == [] then Lines(s, [])
    else if declarations[0].declared !in s.used then RewriteDeclarations(m, s, declarations[1..])
    else
      var w := Rewrite(m, s, declarations[0].tokens);
      var rest := RewriteDeclarations(m, w.state, declarations[1..]);
      rest.(lines := [w.out] + rest.lines)
  }

  lemma {:induction false} RewriteAllKeepsNodes(m: Module, s: State, texts: seq<seq<Token>>)
    requires NodesNumbered(s)
    ensures NodesNumbered(RewriteAll(m, s, texts).state)
    decreases |texts|
  {
    if texts != [] {
      RewriteKeepsNodes(m, s, texts[0]);
      RewriteAllKeepsNodes(m, Rewrite(m, s, texts[0]).state, texts[1..]);
    }
  }

  lemma {:induction false} RewriteCodeKeepsNodes(m: Module, s: State, code: seq<Line>)
    requires NodesNumbered(s)
    ensures NodesNumbered(RewriteCode(m, s, code).state)
    decreases |code|
  {
    if code != [] {
      RewriteKeepsNodes(m, AtLine(s, code[0]), code[0].tokens);
      RewriteCodeKeepsNodes(m, Rewrite(m, AtLine(s, code[0]), code[0].tokens).state, code[1..]);
    }
  }

  lemma {:induction false} RewriteDeclarationsKeepsNodes(m: Module, s: State, declarations: seq<Declaration>)
    requires NodesNumbered(s)
    ensures NodesNumbered(RewriteDeclarations(m, s, declarations).state)
    decreases |declarations|
  {
    if declarations != [] {
      if declarations[0].declared in s.used {
        RewriteKeepsNodes(m, s, declarations[0].tokens);
        RewriteDeclarationsKeepsNodes(m, Rewrite(m, s, declarations[0].tokens).state, declarations[1..]);
      } else {
        RewriteDeclarationsKeepsNodes(m, s, declarations[1..]);
      }
    }
  }

  /** A canonical text: its lines, the sorted declarations, and the metadata the lines reach. */
  datatype CanonicalForm = CanonicalForm(lines: seq<seq<Out>>, declared: multiset<seq<Out>>, metadata: seq<seq<Out>>)

  datatype Analysis = Analysis(properties: CanonicalForm, instructions: CanonicalForm)

  function Properties(m: Module, reflected: map<string, nat>): Option<CanonicalForm> {
    var written := RewriteAll(m, INITIAL, m.targets + RootTexts(m.roots));
    RewriteAllKeepsNodes(m, INITIAL, m.targets + RootTexts(m.roots));
    var finished := Finish(m, reflected, written.state, 0);
    if finished.ok then Some(CanonicalForm(written.lines, multiset{}, finished.lines)) else None
  }

  function Instructions(m: Module, reflected: map<string, nat>): Option<CanonicalForm> {
    var code := RewriteCode(m, INITIAL, m.code);
    RewriteCodeKeepsNodes(m, INITIAL, m.code);
    var declared := RewriteDeclarations(m, code.state, m.declarations);
    RewriteDeclarationsKeepsNodes(m, code.state, m.declarations);
    var finished := Finish(m, reflected, declared.state, 0);
    if finished.ok then Some(CanonicalForm(code.lines, multiset(declared.lines), finished.lines)) else None
  }

  /** canonical_shader_ir (shader_ir.cpp:371-403) on a parsed module. */
  function Canonical(m: Module): Option<Analysis> {
    match MarkRoots(m, map[], m.roots)
    case None => None
    case Some(reflected) =>
      match (Properties(m, reflected), Instructions(m, reflected))
      case (Some(p), Some(i)) => Some(Analysis(p, i))
      case _ => None
  }

  // ---------------------------------------------------------------- the object

  /** CanonicalText: the state above as fields that the rewriting loops update. */
  class CanonicalText {
    const m: Module
    const reflected: map<string, nat>
    var locals: map<string, nat>
    var layouts: map<string, seq<Out>>
    var active: set<string>
    var globals: map<string, nat>
    var nodeIds: map<string, nat>
    var globalCount: nat
    var used: set<string>
    var metadata: seq<string>
    var valid: bool
    var output: seq<seq<Out>>

    ghost function Now(): State
      reads this
    {
      State(locals, layouts, active, globals, nodeIds, globalCount, used, metadata, valid)
    }

    constructor (m: Module, reflected: map<string, nat>)
      ensures this.m == m && this.reflected == reflected && Now() == INITIAL && output == []
    {
      this.m, this.reflected := m, reflected;
      locals, layouts, active, globals, nodeIds, globalCount := map[], map[], {}, map[], map[], 0;
      used, metadata, valid, output := {}, [], true, [];
    }

    method WriteTokens(tokens: seq<Token>) returns (out: seq<Out>)
      modifies this
      ensures Written(Now(), out) == Rewrite(m, old(Now()), tokens) && output == old(output)
      decreases |m.types.Keys - active|, |tokens|, 2
    {
      out := [];
      ghost var s0 := Now();
      for offset := 0 to |tokens|
        invariant active == s0.active && output == old(output)
        invariant Rewrite(m, s0, tokens) ==
                  (var rest := Rewrite(m, Now(), tokens[offset..]); Written(rest.state, out + rest.out))
      {
        ghost var remaining := tokens[offset..];
        assert remaining[0] == tokens[offset] && remaining[1..] == tokens[offset + 1..];
        ghost var before := Now();
        var piece := Rename(tokens[offset]);
        Associative(out, piece, Rewrite(m, Now(), tokens[offset + 1..]).out);
        out := out + piece;
      }
      assert tokens[|tokens|..] == [] && out + [] == out;
    }

    method Rename(t: Token) returns (out: seq<Out>)
      modifies this
      ensures Written(Now(), out) == RewriteToken(m, old(Now()), t) && output == old(output)
      decreases |m.types.Keys - active|, 0, 1
    {
      match t
      case Text(text) => return [OText(text)];
      case Hash(name) =>
        if name !in m.attributes || m.attributes[name].Malformed? {
          valid := false;
          return [];
        }
        return [OAttributes(multiset(m.attributes[name].fields))];
      case At(name) =>
        used := used + {name};
        if IsIntrinsic(name) { return [OIntrinsic(name)]; }
        if name !in globals {
          globals := globals[name := globalCount];
          globalCount := globalCount + 1;
        }
        return [OGlobal(globals[name])];
      case Bang(name) =>
        if name !in nodeIds {
          nodeIds := nodeIds[name := |metadata|];
          metadata := metadata + [name];
        }
        return [OMeta(nodeIds[name])];
      case Percent(name) =>
        if name in m.types {
          out := Layout(name);
          return;
        }
        if name !in locals { locals := locals[name := |locals|]; }
        return [OLocal(locals[name])];
    }

    method Layout(name: string) returns (out: seq<Out>)
      requires name in m.types
      modifies this
      ensures Written(Now(), out) == TypeLayout(m, old(Now()), name) && output == old(output)
      decreases |m.types.Keys - active|, 0, 0
    {
      if name in layouts { return layouts[name]; }
      if name in active {
        valid := false;
        return [];
      }
      OneMoreActive(m.types.Keys, active, name);
      active := active + {name};
      out := WriteTokens(m.types[name]);
      active := active - {name};
      layouts := Emplace(layouts, name, out);
    }

    method Append(tokens: seq<Token>)
      modifies this
      ensures Now() == Rewrite(m, old(Now()), tokens).state
      ensures output == old(output) + [Rewrite(m, old(Now()), tokens).out]
    {
      var out := WriteTokens(tokens);
      output := output + [out];
    }

    method ResetLocals()
      modifies this`locals
      ensures locals == map[]
    {
      locals := map[];
    }

    /** The worklist loop: it visits nodes that its own output adds, and each at most once. */
    method FinishText() returns (ok: bool)
      requires NodesNumbered(Now())
      modifies this
      ensures
        var f := Finish(m, reflected, old(Now()), 0);
        && ok == f.ok && output == old(output) + f.lines && Now() == f.state
    {
      ghost var goal := Extend(output, Finish(m, reflected, Now(), 0));
      ok := FinishLoop(goal);
      assert output[|old(output)|..] == Finish(m, reflected, old(Now()), 0).lines;
    }

    /** The loop: what it has written and what is left to write make up `goal`. */
    method FinishLoop(ghost goal: Finished) returns (ok: bool)
      requires NodesNumbered(Now()) && goal == Extend(output, Finish(m, reflected, Now(), 0))
      modifies this
      ensures goal == Finished(Now(), output, ok)
    {
      var index := 0;
      while index < |metadata|
        invariant Ready(m, Now(), index) && goal == Extend(output, Finish(m, reflected, Now(), index))
        decreases |m.nodes.Keys| - index
      {
        ghost var before, was := output, Now();
        var done := FinishNode(index);
        if !done {
          ExtendNothing(output, Now(), false);
          return false;
        }
        ExtendTwice(before, [Rewrite(m, was, Work(m, reflected, was, index).value).out], Finish(m, reflected, Now(), index + 1));
        index := index + 1;
      }
      ExtendNothing(output, Now(), valid);
      return valid;
    }

    /** One turn of that loop: the body of a node, unless it is missing or its reflection name is. */
    method FinishNode(index: nat) returns (ok: bool)
      requires Ready(m, Now(), index) && index < |metadata|
      modifies this
      ensures ok == Work(m, reflected, old(Now()), index).Some?
      ensures !ok ==> output == old(output) && Now() == old(Now()).(valid := false)
      ensures !ok ==> Finish(m, reflected, old(Now()), index) == Finished(Now(), [], false)
      ensures ok ==> Ready(m, Now(), index + 1) && index < |m.nodes.Keys|
      ensures ok ==>
        var w := Rewrite(m, old(Now()), Work(m, reflected, old(Now()), index).value);
        && Now() == w.state && output == old(output) + [w.out]
        && Finish(m, reflected, old(Now()), index) == Extend([w.out], Finish(m, reflected, Now(), index + 1))
    {
      var name := metadata[index];
      if name !in m.nodes || BodyText(m, reflected, name).None? {
        FinishStops(m, reflected, Now(), index);
        valid := false;
        return false;
      }
      FinishStep(m, reflected, Now(), index);
      Append(BodyText(m, reflected, name).value);
      return true;
    }
  }

  /** The properties text (shader_ir.cpp:375-382, 398). */
  method WriteProperties(m: Module, reflected: map<string, nat>) returns (form: Option<CanonicalForm>)
    ensures form == Properties(m, reflected)
  {
    var text := new CanonicalText(m, reflected);
    var texts := m.targets + RootTexts(m.roots);
    for i := 0 to |texts|
      invariant RewriteAll(m, INITIAL, texts) ==
                (var rest := RewriteAll(m, text.Now(), texts[i..]); Lines(rest.state, text.output + rest.lines))
      invariant text.m == m && text.reflected == reflected && NodesNumbered(text.Now())
    {
      assert texts[i..][0] == texts[i] && texts[i..][1..] == texts[i + 1..];
      RewriteKeepsNodes(m, text.Now(), texts[i]);
      ghost var before, out := text.output, Rewrite(m, text.Now(), texts[i]).out;
      text.Append(texts[i]);
      Associative(before, [out], RewriteAll(m, text.Now(), texts[i + 1..]).lines);
    }
    assert texts[|texts|..] == [] && text.output + [] == text.output;
    var lines := text.output;
    var ok := text.FinishText();
    assert text.output[|lines|..] == Finish(m, reflected, RewriteAll(m, INITIAL, texts).state, 0).lines;
    return if ok then Some(CanonicalForm(lines, multiset{}, text.output[|lines|..])) else None;
  }

  /** The instructions text (shader_ir.cpp:375, 383-398). */
  method WriteInstructions(m: Module, reflected: map<string, nat>) returns (form: Option<CanonicalForm>)
    ensures form == Instructions(m, reflected)
  {
    var text := new CanonicalText(m, reflected);
    for i := 0 to |m.code|
      invariant RewriteCode(m, INITIAL, m.code) ==
                (var rest := RewriteCode(m, text.Now(), m.code[i..]); Lines(rest.state, text.output + rest.lines))
      invariant text.m == m && text.reflected == reflected && NodesNumbered(text.Now())
    {
      assert m.code[i..][0] == m.code[i] && m.code[i..][1..] == m.code[i + 1..];
      ghost var s, before := AtLine(text.Now(), m.code[i]), text.output;
      if m.code[i].Begins() { text.ResetLocals(); }
      RewriteKeepsNodes(m, s, m.code[i].tokens);
      text.Append(m.code[i].tokens);
      Associative(before, [Rewrite(m, s, m.code[i].tokens).out], RewriteCode(m, text.Now(), m.code[i + 1..]).lines);
    }
    assert m.code[|m.code|..] == [] && text.output + [] == text.output;
    var lines := text.output;
    var declared := WriteDeclarations(text);
    RewriteDeclarationsKeepsNodes(m, RewriteCode(m, INITIAL, m.code).state, m.declarations);
    var ok := text.FinishText();
    return if ok then Some(CanonicalForm(lines, multiset(declared), text.output[|lines|..])) else None;
  }

  /** The kept declarations, in source order (shader_ir.cpp:388-394). */
  method WriteDeclarations(text: CanonicalText) returns (declared: seq<seq<Out>>)
    modifies text
    ensures Lines(text.Now(), declared) == RewriteDeclarations(text.m, old(text.Now()), text.m.declarations)
    ensures text.output == old(text.output)
  {
    var all := text.m.declarations;
    declared := [];
    for i := 0 to |all|
      invariant RewriteDeclarations(text.m, old(text.Now()), all) ==
                (var rest := RewriteDeclarations(text.m, text.Now(), all[i..]); Lines(rest.state, declared + rest.lines))
      invariant text.output == old(text.output)
    {
      assert all[i..][0] == all[i] && all[i..][1..] == all[i + 1..];
      if all[i].declared in text.used {
        var out := text.WriteTokens(all[i].tokens);
        Associative(declared, [out], RewriteDeclarations(text.m, text.Now(), all[i + 1..]).lines);
        declared := declared + [out];
      }
    }
    assert all[|all|..] == [] && declared + [] == declared;
  }

  /** canonical_shader_ir on a parsed module. */
  method CanonicalShaderIr(m: Module) returns (result: Option<Analysis>)
    ensures result == Canonical(m)
  {
    var reflected := MarkRoots(m, map[], m.roots);
    if reflected.None? { return None; }
    var properties := WriteProperties(m, reflected.value);
    var instructions := WriteInstructions(m, reflected.value);
    if properties.None? || instructions.None? { return None; }
    return Some(Analysis(properties.value, instructions.value));
  }
}
