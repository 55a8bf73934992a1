/**
 The canonical form merges nothing: when two modules have equal canonical lines, one bijection on
 globals, one on metadata nodes and one per function on locals turn the first module's text, with its
 types written out and its attribute groups as sets of fields, into the second's.
 */
module ShaderSoundness {
  import opened Common
  import opened ShaderIr

  /** A token whose meaning does not depend on type names or attribute group numbers. */
  datatype Symbol =
    | STextual(text: string)
    | SLocal(name: string)
    | SGlobal(name: string)
    | SNode(name: string)
    | SIntrinsic(name: string)
    | SAttributes(fields: multiset<string>)

  /** The text with named types replaced by their bodies, `depth` levels deep; nothing if that does not end. */
  function Expand(m: Module, depth: nat, tokens: seq<Token>): Option<seq<Symbol>>
    decreases depth, |tokens|, 0
  {
    if tokens == [] then Some([])
    else
      var first, rest := ExpandToken(m, depth, tokens[0]), Expand(m, depth, tokens[1..]);
      if first.Some? && rest.Some? then Some(first.value + rest.value) else None
  }

  function ExpandToken(m: Module, depth: nat, t: Token): Option<seq<Symbol>>
    decreases depth, 0, 1
  {
    match t
    case Text(text) => Some([STextual(text)])
    case Hash(name) =>
      if name in m.attributes && m.attributes[name].Fields? then Some([SAttributes(multiset(m.attributes[name].fields))])
      else None
    case At(name) => Some([if IsIntrinsic(name) then SIntrinsic(name) else SGlobal(name)])
    case Bang(name) => Some([SNode(name)])
    case Percent(name) =>
      if name !in m.types then Some([SLocal(name)])
      else if depth == 0 then None
      else Expand(m, depth - 1, m.types[name])
  }

  lemma {:induction false} ExpandDeeper(m: Module, d: nat, e: nat, tokens: seq<Token>)
    requires d <= e && Expand(m, d, tokens).Some?
    ensures Expand(m, e, tokens) == Expand(m, d, tokens)
    decreases d, |tokens|
  {
    if tokens != [] {
      ExpandDeeper(m, d, e, tokens[1..]);
      var t := tokens[0];
      if t.Percent? && t.name in m.types { ExpandDeeper(m, d - 1, e - 1, m.types[t.name]); }
    }
  }

  /** The names that the numbers stand for. */
  datatype Names = Names(locals: seq<string>, globals: seq<string>, nodes: seq<string>)

  predicate Holds(order: seq<string>, index: nat, name: string) {
    index < |order| && order[index] == name
  }

  /** `o` is how `symbol` is written when numbers stand for `names`. */
  predicate Shows(names: Names, symbol: Symbol, o: Out) {
    match symbol
    case STextual(text) => o == OText(text)
    case SIntrinsic(name) => o == OIntrinsic(name)
    case SAttributes(fields) => o == OAttributes(fields)
    case SLocal(name) => o.OLocal? && Holds(names.locals, o.index, name)
    case SGlobal(name) => o.OGlobal? && Holds(names.globals, o.index, name)
    case SNode(name) => o.OMeta? && Holds(names.nodes, o.index, name)
  }

  ghost predicate ShowsAll(names: Names, symbols: seq<Symbol>, out: seq<Out>) {
    |symbols| == |out| && forall i :: 0 <= i < |out| ==> Shows(names, symbols[i], out[i])
  }

  ghost predicate Grown(a: Names, b: Names) {
    a.locals <= b.locals && a.globals <= b.globals && a.nodes <= b.nodes
  }

  ghost predicate Localless(symbols: seq<Symbol>) {
    forall i :: 0 <= i < |symbols| ==> !symbols[i].SLocal?
  }

  lemma ShowsAppend(names: Names, a: seq<Symbol>, x: seq<Out>, b: seq<Symbol>, y: seq<Out>)
    requires ShowsAll(names, a, x) && ShowsAll(names, b, y)
    ensures ShowsAll(names, a + b, x + y)
  {
  }

  lemma ShowsLater(a: Names, b: Names, symbols: seq<Symbol>, out: seq<Out>)
    requires ShowsAll(a, symbols, out) && Grown(a, b)
    ensures ShowsAll(b, symbols, out)
  {
    forall i | 0 <= i < |out| ensures Shows(b, symbols[i], out[i]) {
      assert Shows(a, symbols[i], out[i]);
    }
  }

  /** Text without locals reads the same in every function. */
  lemma ShowsElsewhere(a: Names, b: Names, symbols: seq<Symbol>, out: seq<Out>)
    requires ShowsAll(a, symbols, out) && Localless(symbols) && a.globals <= b.globals && a.nodes <= b.nodes
    ensures ShowsAll(b, symbols, out)
  {
    forall i | 0 <= i < |out| ensures Shows(b, symbols[i], out[i]) {
      assert Shows(a, symbols[i], out[i]);
    }
  }

  /**
   A type's body begins with a brace or a word such as `opaque`, and each % name in it is a type: what a
   disassembler prints. ClosedTypesMatter shows what happens otherwise.
   */
  ghost predicate TypesClosed(m: Module) {
    forall name :: name in m.types ==> ClosedText(m, m.types[name]) && BeginsPlain(m.types[name])
  }

  predicate BeginsPlain(body: seq<Token>) {
    body != [] && body[0].Text? && !BeginsFunction(body[0].text)
  }

  ghost predicate ClosedText(m: Module, tokens: seq<Token>) {
    forall i :: 0 <= i < |tokens| && tokens[i].Percent? ==> tokens[i].name in m.types
  }

  lemma {:induction false} ClosedIsLocalless(m: Module, depth: nat, tokens: seq<Token>)
    requires TypesClosed(m) && ClosedText(m, tokens) && Expand(m, depth, tokens).Some?
    ensures Localless(Expand(m, depth, tokens).value)
    decreases depth, |tokens|
  {
    if tokens != [] {
      ClosedIsLocalless(m, depth, tokens[1..]);
      var t := tokens[0];
      if t.Percent? { ClosedIsLocalless(m, depth - 1, m.types[t.name]); }
    }
  }

  // ---------------------------------------------------------------- what the state knows

  ghost predicate Tables(s: State, names: Names) {
    && Numbered(s.locals, names.locals) && |s.locals| == |names.locals|
    && Numbered(s.globals, names.globals) && s.globalCount == |names.globals|
    && Numbered(s.nodeIds, names.nodes) && s.metadata == names.nodes
  }

  ghost predicate Spells(m: Module, depth: nat, tokens: seq<Token>, symbols: seq<Symbol>) {
    Expand(m, depth, tokens) == Some(symbols)
  }

  ghost predicate CachedType(m: Module, names: Names, name: string, layout: seq<Out>) {
    && name in m.types
    && exists depth: nat, symbols :: Spells(m, depth, m.types[name], symbols) && ShowsAll(names, symbols, layout)
  }

  ghost predicate Cached(m: Module, s: State, names: Names) {
    forall name :: name in s.layouts ==> CachedType(m, names, name, s.layouts[name])
  }

  lemma CachedLater(m: Module, layouts: map<string, seq<Out>>, a: Names, b: Names)
    requires forall name :: name in layouts ==> CachedType(m, a, name, layouts[name])
    requires Grown(a, b)
    ensures forall name :: name in layouts ==> CachedType(m, b, name, layouts[name])
  {
    forall name | name in layouts ensures CachedType(m, b, name, layouts[name]) {
      assert CachedType(m, a, name, layouts[name]);
      var depth: nat, symbols :| Spells(m, depth, m.types[name], symbols) && ShowsAll(a, symbols, layouts[name]);
      ShowsLater(a, b, symbols, layouts[name]);
    }
  }

  /** Where locals begin again, a layout stays right because type bodies name no locals. */
  lemma CachedElsewhere(m: Module, layouts: map<string, seq<Out>>, a: Names, b: Names)
    requires TypesClosed(m) && forall name :: name in layouts ==> CachedType(m, a, name, layouts[name])
    requires a.globals <= b.globals && a.nodes <= b.nodes
    ensures forall name :: name in layouts ==> CachedType(m, b, name, layouts[name])
  {
    forall name | name in layouts ensures CachedType(m, b, name, layouts[name]) {
      assert CachedType(m, a, name, layouts[name]);
      var depth: nat, symbols :| Spells(m, depth, m.types[name], symbols) && ShowsAll(a, symbols, layouts[name]);
      ClosedIsLocalless(m, depth, m.types[name]);
      ShowsElsewhere(a, b, symbols, layouts[name]);
    }
  }

  // ---------------------------------------------------------------- rewriting shows its text

  lemma LocalShows(m: Module, s: State, names: Names, name: string) returns (after: Names)
    requires Tables(s, names) && name !in m.types
    ensures
      var w := RewriteToken(m, s, Percent(name));
      && Grown(names, after) && Tables(w.state, after) && w.state.layouts == s.layouts
      && ShowsAll(after, [SLocal(name)], w.out)
  {
    after := names;
    if name !in s.locals {
      NumberNext(s.locals, names.locals, name);
      after := names.(locals := names.locals + [name]);
    }
  }

  lemma GlobalShows(m: Module, s: State, names: Names, name: string) returns (after: Names)
    requires Tables(s, names)
    ensures
      var w := RewriteToken(m, s, At(name));
      && Grown(names, after) && Tables(w.state, after) && w.state.layouts == s.layouts
      && ShowsAll(after, [if IsIntrinsic(name) then SIntrinsic(name) else SGlobal(name)], w.out)
  {
    after := names;
    if !IsIntrinsic(name) && name !in s.globals {
      NumberNext(s.globals, names.globals, name);
      after := names.(globals := names.globals + [name]);
    }
  }

  lemma NodeShows(m: Module, s: State, names: Names, name: string) returns (after: Names)
    requires Tables(s, names)
    ensures
      var w := RewriteToken(m, s, Bang(name));
      && Grown(names, after) && Tables(w.state, after) && w.state.layouts == s.layouts
      && ShowsAll(after, [SNode(name)], w.out)
  {
    after := names;
    if name !in s.nodeIds {
      NumberNext(s.nodeIds, names.nodes, name);
      after := names.(nodes := names.nodes + [name]);
    }
  }

  lemma TokenShows(m: Module, s: State, names: Names, t: Token) returns (after: Names, symbol: Symbol)
    requires Tables(s, names) && RewriteToken(m, s, t).state.valid && !(t.Percent? && t.name in m.types)
    ensures
      var w := RewriteToken(m, s, t);
      && Grown(names, after) && Tables(w.state, after) && w.state.layouts == s.layouts
      && ExpandToken(m, 0, t) == Some([symbol]) && ShowsAll(after, [symbol], w.out)
  {
    symbol := ExpandToken(m, 0, t).value[0];
    after := names;
    match t
    case Text(text) =>
    case Hash(name) =>
    case At(name) => after := GlobalShows(m, s, names, name);
    case Bang(name) => after := NodeShows(m, s, names, name);
    case Percent(name) => after := LocalShows(m, s, names, name);
  }

  lemma {:induction false} ValidOnce(m: Module, s: State, tokens: seq<Token>)
    ensures Rewrite(m, s, tokens).state.valid ==> s.valid
    decreases |m.types.Keys - s.active|, |tokens|, 0
  {
    if tokens != [] {
      TokenValidOnce(m, s, tokens[0]);
      ValidOnce(m, RewriteToken(m, s, tokens[0]).state, tokens[1..]);
    }
  }

  lemma {:induction false} TokenValidOnce(m: Module, s: State, t: Token)
    ensures RewriteToken(m, s, t).state.valid ==> s.valid
    decreases |m.types.Keys - s.active|, 0, 1
  {
    if t.Percent? && t.name in m.types { LayoutValidOnce(m, s, t.name); }
  }

  lemma {:induction false} LayoutValidOnce(m: Module, s: State, name: string)
    requires name in m.types
    ensures TypeLayout(m, s, name).state.valid ==> s.valid
    decreases |m.types.Keys - s.active|, 0, 0
  {
    if name !in s.layouts && name !in s.active {
      OneMoreActive(m.types.Keys, s.active, name);
      ValidOnce(m, s.(active := s.active + {name}), m.types[name]);
    }
  }

  /** What one rewriting step leaves: the text's meaning under the names it has numbered so far. */
  ghost predicate Shown(m: Module, before: Names, w: Written, after: Names, symbols: seq<Symbol>) {
    Grown(before, after) && Tables(w.state, after) && Cached(m, w.state, after) && ShowsAll(after, symbols, w.out)
  }

  lemma JoinShown(m: Module, a: Names, w: Written, b: Names, x: seq<Symbol>, v: Written, c: Names, y: seq<Symbol>)
    requires Shown(m, a, w, b, x) && Shown(m, b, v, c, y)
    ensures Shown(m, a, Written(v.state, w.out + v.out), c, x + y)
  {
    ShowsLater(b, c, x, w.out);
    ShowsAppend(c, x, w.out, y, v.out);
  }

  lemma {:induction false} RewriteShows(m: Module, s: State, names: Names, tokens: seq<Token>)
    returns (after: Names, depth: nat, symbols: seq<Symbol>)
    requires Tables(s, names) && Cached(m, s, names) && Rewrite(m, s, tokens).state.valid
    ensures Shown(m, names, Rewrite(m, s, tokens), after, symbols) && Expand(m, depth, tokens) == Some(symbols)
    decreases |m.types.Keys - s.active|, |tokens|, 0
  {
    if tokens == [] {
      after, depth, symbols := names, 0, [];
    } else {
      var t := tokens[0];
      var w := RewriteToken(m, s, t);
      ValidOnce(m, w.state, tokens[1..]);
      var middle, d, x := StepShows(m, s, names, t);
      var e, y;
      after, e, y := RewriteShows(m, w.state, middle, tokens[1..]);
      depth := if d < e then e else d;
      symbols := x + y;
      ExpandDeeper(m, d, depth, [t]);
      ExpandDeeper(m, e, depth, tokens[1..]);
      ExpandOne(m, d, t);
      ExpandOne(m, depth, t);
      JoinShown(m, names, w, middle, x, Rewrite(m, w.state, tokens[1..]), after, y);
    }
  }

  lemma ExpandOne(m: Module, depth: nat, t: Token)
    ensures Expand(m, depth, [t]) == ExpandToken(m, depth, t)
  {
    assert [t][0] == t && [t][1..] == [];
    assert Expand(m, depth, []) == Some([]);
    if ExpandToken(m, depth, t).Some? {
      assert ExpandToken(m, depth, t).value + [] == ExpandToken(m, depth, t).value;
    }
  }

  lemma {:induction false} StepShows(m: Module, s: State, names: Names, t: Token)
    returns (after: Names, depth: nat, symbols: seq<Symbol>)
    requires Tables(s, names) && Cached(m, s, names) && RewriteToken(m, s, t).state.valid
    ensures Shown(m, names, RewriteToken(m, s, t), after, symbols) && Expand(m, depth, [t]) == Some(symbols)
    decreases |m.types.Keys - s.active|, 0, 1
  {
    if t.Percent? && t.name in m.types {
      after, depth, symbols := LayoutShows(m, s, names, t.name);
      depth := depth + 1;
      assert ExpandToken(m, depth, t) == Expand(m, depth - 1, m.types[t.name]);
    } else {
      var symbol;
      after, symbol := TokenShows(m, s, names, t);
      depth, symbols := 0, [symbol];
      CachedLater(m, s.layouts, names, after);
    }
    ExpandOne(m, depth, t);
  }

  lemma {:induction false} LayoutShows(m: Module, s: State, names: Names, name: string)
    returns (after: Names, depth: nat, symbols: seq<Symbol>)
    requires Tables(s, names) && Cached(m, s, names)
    requires name in m.types && TypeLayout(m, s, name).state.valid
    ensures Shown(m, names, TypeLayout(m, s, name), after, symbols) && Expand(m, depth, m.types[name]) == Some(symbols)
    decreases |m.types.Keys - s.active|, 0, 0
  {
    if name in s.layouts {
      assert CachedType(m, names, name, s.layouts[name]);
      after := names;
      depth, symbols :| Spells(m, depth, m.types[name], symbols) && ShowsAll(names, symbols, s.layouts[name]);
    } else {
      OneMoreActive(m.types.Keys, s.active, name);
      var u := s.(active := s.active + {name});
      after, depth, symbols := RewriteShows(m, u, names, m.types[name]);
      var w := Rewrite(m, u, m.types[name]);
      LayoutCached(m, w.state, after, name, depth, symbols, w.out);
    }
  }

  lemma LayoutCached(m: Module, s: State, names: Names, name: string, depth: nat, symbols: seq<Symbol>, out: seq<Out>)
    requires Cached(m, s, names) && name in m.types
    requires Expand(m, depth, m.types[name]) == Some(symbols) && ShowsAll(names, symbols, out)
    ensures Cached(m, s.(active := s.active - {name}, layouts := Emplace(s.layouts, name, out)), names)
  {
    assert Spells(m, depth, m.types[name], symbols);
  }

  // ---------------------------------------------------------------- whole texts

  /** Some depth writes all the types of `tokens` out. */
  ghost predicate Means(m: Module, tokens: seq<Token>, symbols: seq<Symbol>) {
    exists depth: nat :: Spells(m, depth, tokens, symbols)
  }

  /** `out` is a canonical line for `tokens`, its numbers standing for `names`. */
  ghost predicate Reads(m: Module, names: Names, tokens: seq<Token>, out: seq<Out>) {
    exists symbols :: Means(m, tokens, symbols) && ShowsAll(names, symbols, out)
  }

  ghost predicate ReadsAll(m: Module, names: Names, texts: seq<seq<Token>>, lines: seq<seq<Out>>) {
    |texts| == |lines| && forall i :: 0 <= i < |texts| ==> Reads(m, names, texts[i], lines[i])
  }

  /** A state reached while writing under `names`. */
  ghost predicate Knows(m: Module, s: State, names: Names) {
    Tables(s, names) && Cached(m, s, names)
  }

  lemma LineReads(m: Module, s: State, names: Names, tokens: seq<Token>) returns (after: Names)
    requires Knows(m, s, names) && Rewrite(m, s, tokens).state.valid
    ensures
      var w := Rewrite(m, s, tokens);
      s.valid && Grown(names, after) && Knows(m, w.state, after) && Reads(m, after, tokens, w.out)
  {
    var depth, symbols;
    after, depth, symbols := RewriteShows(m, s, names, tokens);
    ValidOnce(m, s, tokens);
    assert Spells(m, depth, tokens, symbols) && Means(m, tokens, symbols);
  }

  lemma ReadsLater(m: Module, a: Names, b: Names, tokens: seq<Token>, out: seq<Out>)
    requires Reads(m, a, tokens, out) && Grown(a, b)
    ensures Reads(m, b, tokens, out)
  {
    var symbols :| Means(m, tokens, symbols) && ShowsAll(a, symbols, out);
    ShowsLater(a, b, symbols, out);
  }

  lemma {:induction false} AllReads(m: Module, s: State, names: Names, texts: seq<seq<Token>>) returns (after: Names)
    requires Knows(m, s, names) && RewriteAll(m, s, texts).state.valid
    ensures
      var r := RewriteAll(m, s, texts);
      s.valid && Grown(names, after) && Knows(m, r.state, after) && ReadsAll(m, after, texts, r.lines)
    decreases |texts|
  {
    after := names;
    if texts != [] {
      var w := Rewrite(m, s, texts[0]);
      AllValidOnce(m, w.state, texts[1..]);
      var middle := LineReads(m, s, names, texts[0]);
      after := AllReads(m, w.state, middle, texts[1..]);
      ReadsLater(m, middle, after, texts[0], w.out);
      ReadsMore(m, after, texts, w.out, RewriteAll(m, w.state, texts[1..]).lines);
    }
  }

  lemma ReadsMore(m: Module, names: Names, texts: seq<seq<Token>>, out: seq<Out>, lines: seq<seq<Out>>)
    requires texts != [] && Reads(m, names, texts[0], out) && ReadsAll(m, names, texts[1..], lines)
    ensures ReadsAll(m, names, texts, [out] + lines)
  {
    forall i | 0 <= i < |texts| ensures Reads(m, names, texts[i], ([out] + lines)[i]) {
      if i > 0 { assert texts[i] == texts[1..][i - 1]; }
    }
  }

  lemma {:induction false} AllValidOnce(m: Module, s: State, texts: seq<seq<Token>>)
    ensures RewriteAll(m, s, texts).state.valid ==> s.valid
    decreases |texts|
  {
    if texts != [] {
      ValidOnce(m, s, texts[0]);
      AllValidOnce(m, Rewrite(m, s, texts[0]).state, texts[1..]);
    }
  }

  // ---------------------------------------------------------------- code, function by function

  /** The function that line `i` belongs to; 0 is what precedes the first. */
  ghost function FunctionOf(code: seq<Line>, i: nat): (k: nat)
    requires i < |code|
    ensures k <= Defines(code)
  {
    (if code[0].Begins() then 1 else 0) + if i == 0 then 0 else FunctionOf(code[1..], i - 1)
  }

  ghost predicate Distinct(order: seq<string>) {
    forall i, j :: 0 <= i < j < |order| ==> order[i] != order[j]
  }

  lemma NumberedIsDistinct(ids: map<string, nat>, order: seq<string>)
    requires Numbered(ids, order)
    ensures Distinct(order)
  {
    forall i, j | 0 <= i < j < |order| ensures order[i] != order[j] {
      assert ids[order[i]] == i && ids[order[j]] == j;
    }
  }

  ghost predicate CodeReads(m: Module, locals: seq<seq<string>>, globals: seq<string>, nodes: seq<string>,
                            code: seq<Line>, lines: seq<seq<Out>>)
  {
    && |lines| == |code| && |locals| == 1 + Defines(code)
    && forall i :: 0 <= i < |code| ==>
                     Reads(m, Names(locals[FunctionOf(code, i)], globals, nodes), code[i].tokens, lines[i])
  }

  lemma CodeReadsLater(m: Module, locals: seq<seq<string>>, a: Names, b: Names, code: seq<Line>, lines: seq<seq<Out>>)
    requires CodeReads(m, locals, a.globals, a.nodes, code, lines) && Grown(a, b)
    requires locals[|locals| - 1] == a.locals
    ensures CodeReads(m, locals[|locals| - 1 := b.locals], b.globals, b.nodes, code, lines)
  {
    var last := locals[|locals| - 1 := b.locals];
    forall i | 0 <= i < |code| ensures Reads(m, Names(last[FunctionOf(code, i)], b.globals, b.nodes), code[i].tokens, lines[i]) {
      ReadsLater(m, Names(locals[FunctionOf(code, i)], a.globals, a.nodes),
                 Names(last[FunctionOf(code, i)], b.globals, b.nodes), code[i].tokens, lines[i]);
    }
  }

  lemma {:induction false} CodeValidOnce(m: Module, s: State, code: seq<Line>)
    ensures RewriteCode(m, s, code).state.valid ==> s.valid
    decreases |code|
  {
    if code != [] {
      ValidOnce(m, AtLine(s, code[0]), code[0].tokens);
      CodeValidOnce(m, Rewrite(m, AtLine(s, code[0]), code[0].tokens).state, code[1..]);
    }
  }

  lemma LineStarts(m: Module, s: State, names: Names, line: Line)
    requires TypesClosed(m) && Knows(m, s, names)
    ensures Knows(m, AtLine(s, line), if line.Begins() then names.(locals := []) else names)
  {
    if line.Begins() { CachedElsewhere(m, s.layouts, names, names.(locals := [])); }
  }

  lemma CodeReadsMore(m: Module, first: seq<string>, locals: seq<seq<string>>, globals: seq<string>, nodes: seq<string>,
                      code: seq<Line>, out: seq<Out>, lines: seq<seq<Out>>)
    requires code != [] && CodeReads(m, locals, globals, nodes, code[1..], lines)
    requires Reads(m, Names(locals[0], globals, nodes), code[0].tokens, out)
    ensures CodeReads(m, if code[0].Begins() then [first] + locals else locals, globals, nodes, code, [out] + lines)
  {
    var all := if code[0].Begins() then [first] + locals else locals;
    forall i | 0 <= i < |code|
      ensures Reads(m, Names(all[FunctionOf(code, i)], globals, nodes), code[i].tokens, ([out] + lines)[i])
    {
      if i > 0 {
        assert code[i] == code[1..][i - 1];
        assert all[FunctionOf(code, i)] == locals[FunctionOf(code[1..], i - 1)];
      }
    }
  }

  lemma CodeJoins(m: Module, names: Names, middle: Names, locals: seq<seq<string>>, after: Names,
                  code: seq<Line>, out: seq<Out>, lines: seq<seq<Out>>)
    requires code != [] && Reads(m, middle, code[0].tokens, out)
    requires Grown(if code[0].Begins() then names.(locals := []) else names, middle)
    requires CodeReads(m, locals, after.globals, after.nodes, code[1..], lines) && locals[|locals| - 1] == after.locals
    requires middle.globals <= after.globals && middle.nodes <= after.nodes && middle.locals <= locals[0]
    ensures
      var all := if code[0].Begins() then [names.locals] + locals else locals;
      && CodeReads(m, all, after.globals, after.nodes, code, [out] + lines)
      && names.locals <= all[0] && all[|all| - 1] == after.locals
      && names.globals <= after.globals && names.nodes <= after.nodes
  {
    ReadsLater(m, middle, Names(locals[0], after.globals, after.nodes), code[0].tokens, out);
    CodeReadsMore(m, names.locals, locals, after.globals, after.nodes, code, out, lines);
  }

  lemma {:induction false} CodeShows(m: Module, s: State, names: Names, code: seq<Line>)
    returns (locals: seq<seq<string>>, after: Names)
    requires TypesClosed(m) && Knows(m, s, names) && RewriteCode(m, s, code).state.valid
    ensures
      var r := RewriteCode(m, s, code);
      && s.valid && Knows(m, r.state, after) && names.globals <= after.globals && names.nodes <= after.nodes
      && CodeReads(m, locals, after.globals, after.nodes, code, r.lines)
      && names.locals <= locals[0] && locals[|locals| - 1] == after.locals
      && forall k :: 0 <= k < |locals| ==> Distinct(locals[k])
    decreases |code|
  {
    if code == [] {
      NumberedIsDistinct(s.locals, names.locals);
      locals, after := [names.locals], names;
    } else {
      var line, u := code[0], AtLine(s, code[0]);
      var w := Rewrite(m, u, line.tokens);
      CodeValidOnce(m, w.state, code[1..]);
      LineStarts(m, s, names, line);
      var start := if line.Begins() then names.(locals := []) else names;
      var middle := LineReads(m, u, start, line.tokens);
      locals, after := CodeShows(m, w.state, middle, code[1..]);
      CodeJoins(m, names, middle, locals, after, code, w.out, RewriteCode(m, w.state, code[1..]).lines);
      if line.Begins() {
        NumberedIsDistinct(s.locals, names.locals);
        locals := [names.locals] + locals;
      }
    }
  }

  // ---------------------------------------------------------------- declarations and metadata

  /** The declarations that are kept, in order. */
  ghost function Kept(m: Module, s: State, all: seq<Declaration>): seq<seq<Token>>
    decreases |all|
  {
    if all == [] then []
    else if all[0].declared !in s.used then Kept(m, s, all[1..])
    else [all[0].tokens] + Kept(m, Rewrite(m, s, all[0].tokens).state, all[1..])
  }

  lemma {:induction false} DeclarationsAreKept(m: Module, s: State, all: seq<Declaration>)
    ensures RewriteDeclarations(m, s, all) == RewriteAll(m, s, Kept(m, s, all))
    decreases |all|
  {
    if all != [] {
      if all[0].declared in s.used {
        var t := Rewrite(m, s, all[0].tokens).state;
        DeclarationsAreKept(m, t, all[1..]);
        assert ([all[0].tokens] + Kept(m, t, all[1..]))[1..] == Kept(m, t, all[1..]);
      } else {
        DeclarationsAreKept(m, s, all[1..]);
      }
    }
  }

  /** Line `i` is the body of node `i`, for every node that the text reaches. */
  ghost predicate MetadataReads(m: Module, reflected: map<string, nat>, names: Names, index: nat, lines: seq<seq<Out>>) {
    && |names.nodes| == index + |lines|
    && forall i :: 0 <= i < |lines| ==> NodeReads(m, reflected, names, names.nodes[index + i], lines[i])
  }

  ghost predicate NodeReads(m: Module, reflected: map<string, nat>, names: Names, node: string, out: seq<Out>) {
    node in m.nodes && BodyText(m, reflected, node).Some? && Reads(m, names, BodyText(m, reflected, node).value, out)
  }

  lemma MetadataReadsMore(m: Module, reflected: map<string, nat>, names: Names, index: nat, out: seq<Out>,
                          lines: seq<seq<Out>>)
    requires MetadataReads(m, reflected, names, index + 1, lines)
    requires NodeReads(m, reflected, names, names.nodes[index], out)
    ensures MetadataReads(m, reflected, names, index, [out] + lines)
  {
    forall i | 0 <= i <= |lines| ensures NodeReads(m, reflected, names, names.nodes[index + i], ([out] + lines)[i]) {
      if i > 0 { assert names.nodes[index + 1 + (i - 1)] == names.nodes[index + i]; }
    }
  }

  lemma {:induction false} FinishValidOnce(m: Module, reflected: map<string, nat>, s: State, index: nat)
    requires NodesNumbered(s) && index <= |s.metadata|
    requires forall i :: 0 <= i < index ==> s.metadata[i] in m.nodes
    ensures Finish(m, reflected, s, index).ok ==> s.valid
    decreases |m.nodes.Keys| - index
  {
    if index < |s.metadata| && s.metadata[index] in m.nodes && BodyText(m, reflected, s.metadata[index]).Some? {
      var tokens := BodyText(m, reflected, s.metadata[index]).value;
      WorklistBound(m.nodes.Keys, s, index);
      RewriteKeepsNodes(m, s, tokens);
      ValidOnce(m, s, tokens);
      FinishValidOnce(m, reflected, Rewrite(m, s, tokens).state, index + 1);
    }
  }

  lemma {:induction false} FinishShows(m: Module, reflected: map<string, nat>, s: State, names: Names, index: nat)
    returns (after: Names)
    requires Knows(m, s, names) && Ready(m, s, index) && Finish(m, reflected, s, index).ok
    ensures s.valid && Grown(names, after) && Distinct(after.locals) && Distinct(after.globals) && Distinct(after.nodes)
    ensures MetadataReads(m, reflected, after, index, Finish(m, reflected, s, index).lines)
    decreases |m.nodes.Keys| - index
  {
    after := names;
    if index == |s.metadata| {
      NumberedIsDistinct(s.locals, names.locals);
      NumberedIsDistinct(s.globals, names.globals);
      NumberedIsDistinct(s.nodeIds, names.nodes);
    } else {
      if Work(m, reflected, s, index).None? { FinishStops(m, reflected, s, index); }
      var tokens := Work(m, reflected, s, index).value;
      FinishStep(m, reflected, s, index);
      var w := Rewrite(m, s, tokens);
      FinishValidOnce(m, reflected, w.state, index + 1);
      var middle := LineReads(m, s, names, tokens);
      after := FinishShows(m, reflected, w.state, middle, index + 1);
      FinishJoins(m, reflected, middle, after, s.metadata[index], index, w.out, Finish(m, reflected, w.state, index + 1).lines);
    }
  }

  /** A node's line before those of the nodes after it. */
  lemma FinishJoins(m: Module, reflected: map<string, nat>, middle: Names, after: Names, name: string, index: nat,
                    out: seq<Out>, lines: seq<seq<Out>>)
    requires index < |middle.nodes| && middle.nodes[index] == name && Grown(middle, after)
    requires name in m.nodes && BodyText(m, reflected, name).Some? && Reads(m, middle, BodyText(m, reflected, name).value, out)
    requires MetadataReads(m, reflected, after, index + 1, lines)
    ensures MetadataReads(m, reflected, after, index, [out] + lines)
  {
    ReadsLater(m, middle, after, BodyText(m, reflected, name).value, out);
    MetadataReadsMore(m, reflected, after, index, out, lines);
  }

  // ---------------------------------------------------------------- two modules with one canonical form

  /** `y` is `x` under one map for each kind of name. */
  ghost predicate Translates(locals: map<string, string>, globals: map<string, string>, nodes: map<string, string>,
                             x: Symbol, y: Symbol)
  {
    match x
    case SLocal(name) => name in locals && y == SLocal(locals[name])
    case SGlobal(name) => name in globals && y == SGlobal(globals[name])
    case SNode(name) => name in nodes && y == SNode(nodes[name])
    case _ => y == x
  }

  /** Both texts have a meaning, and one is the other's translation. */
  ghost predicate SameMeaning(a: Module, b: Module, locals: map<string, string>, globals: map<string, string>,
                              nodes: map<string, string>, x: seq<Token>, y: seq<Token>)
  {
    exists u, v :: Means(a, x, u) && Means(b, y, v) && TranslatesAll(locals, globals, nodes, u, v)
  }

  ghost predicate TranslatesAll(locals: map<string, string>, globals: map<string, string>, nodes: map<string, string>,
                                u: seq<Symbol>, v: seq<Symbol>)
  {
    |u| == |v| && forall i :: 0 <= i < |u| ==> Translates(locals, globals, nodes, u[i], v[i])
  }

  /** A text means one thing, whatever the depth. */
  lemma MeansOnce(m: Module, tokens: seq<Token>, u: seq<Symbol>, v: seq<Symbol>)
    requires Means(m, tokens, u) && Means(m, tokens, v)
    ensures u == v
  {
    var d: nat :| Spells(m, d, tokens, u);
    var e: nat :| Spells(m, e, tokens, v);
    if d <= e { ExpandDeeper(m, d, e, tokens); } else { ExpandDeeper(m, e, d, tokens); }
  }

  /** Names with equal numbers. */
  function PairUp(p: seq<string>, q: seq<string>): map<string, string>
    requires Distinct(p)
  {
    var n := if |p| < |q| then |p| else |q|;
    map i | 0 <= i < n :: p[i] := q[i]
  }

  lemma PairUpOneToOne(p: seq<string>, q: seq<string>)
    requires Distinct(p) && Distinct(q)
    ensures OneToOne(PairUp(p, q))
  {
    var f := PairUp(p, q);
    forall a, b ensures Apart(f, a, b) {
      if a in f && b in f {
        var i :| 0 <= i < |p| && i < |q| && p[i] == a && f[a] == q[i];
        var j :| 0 <= j < |p| && j < |q| && p[j] == b && f[b] == q[j];
        assert i < j ==> q[i] != q[j];
        assert j < i ==> q[j] != q[i];
      }
    }
  }

  lemma PairUpHolds(p: seq<string>, q: seq<string>, index: nat, name: string, other: string)
    requires Distinct(p) && Holds(p, index, name) && Holds(q, index, other)
    ensures name in PairUp(p, q) && PairUp(p, q)[name] == other
  {
    assert p[index] in PairUp(p, q);
  }

  lemma SymbolsTranslate(p: Names, q: Names, x: Symbol, y: Symbol, o: Out)
    requires Distinct(p.locals) && Distinct(p.globals) && Distinct(p.nodes)
    requires Shows(p, x, o) && Shows(q, y, o)
    ensures Translates(PairUp(p.locals, q.locals), PairUp(p.globals, q.globals), PairUp(p.nodes, q.nodes), x, y)
  {
    match x
    case SLocal(name) => PairUpHolds(p.locals, q.locals, o.index, name, y.name);
    case SGlobal(name) => PairUpHolds(p.globals, q.globals, o.index, name, y.name);
    case SNode(name) => PairUpHolds(p.nodes, q.nodes, o.index, name, y.name);
    case _ =>
  }

  lemma LinesTranslate(a: Module, p: Names, x: seq<Token>, b: Module, q: Names, y: seq<Token>, out: seq<Out>)
    requires Distinct(p.locals) && Distinct(p.globals) && Distinct(p.nodes)
    requires Reads(a, p, x, out) && Reads(b, q, y, out)
    ensures SameMeaning(a, b, PairUp(p.locals, q.locals), PairUp(p.globals, q.globals), PairUp(p.nodes, q.nodes), x, y)
  {
    var l, g, n := PairUp(p.locals, q.locals), PairUp(p.globals, q.globals), PairUp(p.nodes, q.nodes);
    var u :| Means(a, x, u) && ShowsAll(p, u, out);
    var v :| Means(b, y, v) && ShowsAll(q, v, out);
    forall i | 0 <= i < |u| ensures Translates(l, g, n, u[i], v[i]) {
      assert Shows(p, u[i], out[i]) && Shows(q, v[i], out[i]);
      SymbolsTranslate(p, q, u[i], v[i], out[i]);
    }
  }

  /** The bodies of the nodes that `nodes` pairs mean the same; only reflection names, blanked in both, may differ. */
  ghost predicate SameNodes(a: Module, ra: map<string, nat>, b: Module, rb: map<string, nat>, locals: map<string, string>,
                            globals: map<string, string>, nodes: map<string, string>)
  {
    forall name :: name in nodes ==> SameNode(a, ra, b, rb, locals, globals, nodes, name)
  }

  ghost predicate SameNode(a: Module, ra: map<string, nat>, b: Module, rb: map<string, nat>, locals: map<string, string>,
                           globals: map<string, string>, nodes: map<string, string>, name: string)
    requires name in nodes
  {
    && name in a.nodes && BodyText(a, ra, name).Some?
    && nodes[name] in b.nodes && BodyText(b, rb, nodes[name]).Some?
    && SameMeaning(a, b, locals, globals, nodes, BodyText(a, ra, name).value, BodyText(b, rb, nodes[name]).value)
  }

  lemma NodesTranslate(a: Module, ra: map<string, nat>, p: Names, b: Module, rb: map<string, nat>, q: Names,
                       lines: seq<seq<Out>>)
    requires Distinct(p.locals) && Distinct(p.globals) && Distinct(p.nodes)
    requires MetadataReads(a, ra, p, 0, lines) && MetadataReads(b, rb, q, 0, lines)
    ensures SameNodes(a, ra, b, rb, PairUp(p.locals, q.locals), PairUp(p.globals, q.globals), PairUp(p.nodes, q.nodes))
  {
    var l, g, n := PairUp(p.locals, q.locals), PairUp(p.globals, q.globals), PairUp(p.nodes, q.nodes);
    forall name | name in n ensures SameNode(a, ra, b, rb, l, g, n, name) {
      var i :| 0 <= i < |lines| && p.nodes[i] == name && n[name] == q.nodes[i];
      assert NodeReads(a, ra, p, p.nodes[0 + i], lines[i]) && NodeReads(b, rb, q, q.nodes[0 + i], lines[i]);
      LinesTranslate(a, p, BodyText(a, ra, name).value, b, q, BodyText(b, rb, n[name]).value, lines[i]);
    }
  }

  ghost predicate SameTexts(a: Module, b: Module, locals: map<string, string>, globals: map<string, string>,
                            nodes: map<string, string>, x: seq<seq<Token>>, y: seq<seq<Token>>)
  {
    |x| == |y| && forall i :: 0 <= i < |x| ==> SameMeaning(a, b, locals, globals, nodes, x[i], y[i])
  }

  /** What the properties text shows of a module. */
  lemma PropertiesShow(m: Module, reflected: map<string, nat>) returns (names: Names)
    requires Properties(m, reflected).Some?
    ensures
      var form := Properties(m, reflected).value;
      && Distinct(names.locals) && Distinct(names.globals) && Distinct(names.nodes)
      && ReadsAll(m, names, m.targets + RootTexts(m.roots), form.lines)
      && MetadataReads(m, reflected, names, 0, form.metadata)
  {
    var texts := m.targets + RootTexts(m.roots);
    var written := RewriteAll(m, INITIAL, texts);
    RewriteAllKeepsNodes(m, INITIAL, texts);
    FinishValidOnce(m, reflected, written.state, 0);
    var first := AllReads(m, INITIAL, Names([], [], []), texts);
    names := FinishShows(m, reflected, written.state, first, 0);
    forall i | 0 <= i < |texts| ensures Reads(m, names, texts[i], written.lines[i]) {
      ReadsLater(m, first, names, texts[i], written.lines[i]);
    }
  }

  /** Equal properties texts come from properties that mean the same. */
  lemma PropertiesSound(a: Module, ra: map<string, nat>, b: Module, rb: map<string, nat>)
    returns (locals: map<string, string>, globals: map<string, string>, nodes: map<string, string>)
    requires Properties(a, ra).Some? && Properties(a, ra) == Properties(b, rb)
    ensures OneToOne(locals) && OneToOne(globals) && OneToOne(nodes)
    ensures SameTexts(a, b, locals, globals, nodes, a.targets + RootTexts(a.roots), b.targets + RootTexts(b.roots))
    ensures SameNodes(a, ra, b, rb, locals, globals, nodes)
  {
    var p := PropertiesShow(a, ra);
    var q := PropertiesShow(b, rb);
    var form := Properties(a, ra).value;
    locals, globals, nodes := PairUp(p.locals, q.locals), PairUp(p.globals, q.globals), PairUp(p.nodes, q.nodes);
    PairUpOneToOne(p.locals, q.locals);
    PairUpOneToOne(p.globals, q.globals);
    PairUpOneToOne(p.nodes, q.nodes);
    var x, y := a.targets + RootTexts(a.roots), b.targets + RootTexts(b.roots);
    forall i | 0 <= i < |x| ensures SameMeaning(a, b, locals, globals, nodes, x[i], y[i]) {
      LinesTranslate(a, p, x[i], b, q, y[i], form.lines[i]);
    }
    NodesTranslate(a, ra, p, b, rb, q, form.metadata);
  }

  // ---------------------------------------------------------------- instructions

  ghost function KeptDeclarations(m: Module): seq<seq<Token>> {
    Kept(m, RewriteCode(m, INITIAL, m.code).state, m.declarations)
  }

  /** A text `form` of a module; `declared` is the kept declarations before they are sorted. */
  ghost predicate InstructionsRead(m: Module, reflected: map<string, nat>, form: CanonicalForm,
                                   locals: seq<seq<string>>, names: Names, declared: seq<seq<Out>>)
  {
    && CodeReads(m, locals, names.globals, names.nodes, m.code, form.lines)
    && ReadsAll(m, names, KeptDeclarations(m), declared) && form.declared == multiset(declared)
    && MetadataReads(m, reflected, names, 0, form.metadata)
    && Distinct(names.globals) && Distinct(names.nodes) && names.locals == locals[|locals| - 1]
    && forall k :: 0 <= k < |locals| ==> Distinct(locals[k])
  }

  /** What the instructions text shows of a module. */
  lemma InstructionsShow(m: Module, reflected: map<string, nat>)
    returns (locals: seq<seq<string>>, names: Names, declared: seq<seq<Out>>)
    requires TypesClosed(m) && Instructions(m, reflected).Some?
    ensures InstructionsRead(m, reflected, Instructions(m, reflected).value, locals, names, declared)
  {
    var code := RewriteCode(m, INITIAL, m.code);
    RewriteCodeKeepsNodes(m, INITIAL, m.code);
    var kept := KeptDeclarations(m);
    DeclarationsAreKept(m, code.state, m.declarations);
    var written := RewriteDeclarations(m, code.state, m.declarations);
    RewriteDeclarationsKeepsNodes(m, code.state, m.declarations);
    FinishValidOnce(m, reflected, written.state, 0);
    AllValidOnce(m, code.state, kept);
    var first, second;
    locals, first := CodeShows(m, INITIAL, Names([], [], []), m.code);
    second := AllReads(m, code.state, first, kept);
    names := FinishShows(m, reflected, written.state, second, 0);
    CodeReadsLater(m, locals, first, names, m.code, code.lines);
    locals := locals[|locals| - 1 := names.locals];
    declared := written.lines;
    forall i | 0 <= i < |kept| ensures Reads(m, names, kept[i], declared[i]) {
      ReadsLater(m, second, names, kept[i], declared[i]);
    }
  }

  lemma PlainBodyShows(m: Module, depth: nat, body: seq<Token>)
    requires BeginsPlain(body) && Expand(m, depth, body).Some?
    ensures Expand(m, depth, body).value != [] && Expand(m, depth, body).value[0] == STextual(body[0].text)
  {
  }

  lemma FirstSymbol(m: Module, depth: nat, tokens: seq<Token>)
    requires tokens != [] && Expand(m, depth, tokens).Some?
    ensures ExpandToken(m, depth, tokens[0]).Some?
    ensures ExpandToken(m, depth, tokens[0]).value <= Expand(m, depth, tokens).value
  {
  }

  predicate SymbolBegins(x: Symbol) {
    x.STextual? && BeginsFunction(x.text)
  }

  lemma TokenBegins(m: Module, depth: nat, t: Token)
    requires TypesClosed(m) && ExpandToken(m, depth, t).Some?
    ensures
      var symbols := ExpandToken(m, depth, t).value;
      symbols != [] && (SymbolBegins(symbols[0]) <==> Line([t]).Begins())
  {
    if t.Percent? && t.name in m.types { PlainBodyShows(m, depth - 1, m.types[t.name]); }
  }

  predicate OutBegins(out: seq<Out>) {
    out != [] && out[0].OText? && BeginsFunction(out[0].text)
  }

  /** The canonical form of a line begins a function exactly when the line does. */
  lemma BeginningShows(m: Module, names: Names, tokens: seq<Token>, out: seq<Out>)
    requires TypesClosed(m) && Reads(m, names, tokens, out)
    ensures Line(tokens).Begins() <==> OutBegins(out)
  {
    var symbols :| Means(m, tokens, symbols) && ShowsAll(names, symbols, out);
    var depth: nat :| Spells(m, depth, tokens, symbols);
    if tokens != [] {
      FirstSymbol(m, depth, tokens);
      TokenBegins(m, depth, tokens[0]);
      assert Shows(names, symbols[0], out[0]);
    }
  }

  lemma BeginningsShow(m: Module, locals: seq<seq<string>>, globals: seq<string>, nodes: seq<string>,
                       code: seq<Line>, lines: seq<seq<Out>>, i: nat)
    requires TypesClosed(m) && CodeReads(m, locals, globals, nodes, code, lines) && i < |code|
    ensures code[i].Begins() <==> OutBegins(lines[i])
  {
    BeginningShows(m, Names(locals[FunctionOf(code, i)], globals, nodes), code[i].tokens, lines[i]);
  }

  lemma {:induction false} SameFunctionOf(a: seq<Line>, b: seq<Line>)
    requires |a| == |b| && forall i :: 0 <= i < |a| ==> a[i].Begins() == b[i].Begins()
    ensures Defines(a) == Defines(b) && forall i :: 0 <= i < |a| ==> FunctionOf(a, i) == FunctionOf(b, i)
  {
    if a != [] {
      SameFunctionOf(a[1..], b[1..]);
      forall i | 0 <= i < |a| ensures FunctionOf(a, i) == FunctionOf(b, i) {
        if i > 0 { assert FunctionOf(a[1..], i - 1) == FunctionOf(b[1..], i - 1); }
      }
    }
  }

  ghost predicate SameCode(a: Module, b: Module, locals: seq<map<string, string>>, globals: map<string, string>,
                           nodes: map<string, string>)
  {
    && |a.code| == |b.code| && |locals| == 1 + Defines(a.code)
    && forall i :: 0 <= i < |a.code| ==>
                     SameMeaning(a, b, locals[FunctionOf(a.code, i)], globals, nodes, a.code[i].tokens, b.code[i].tokens)
  }

  /** An order in which the second sequence is the first. */
  ghost predicate Permutes(order: seq<nat>, n: nat) {
    && |order| == n && (forall i :: 0 <= i < n ==> order[i] < n)
    && forall i, j :: 0 <= i < j < n ==> order[i] != order[j]
  }

  ghost predicate Rearranged<T>(x: seq<T>, y: seq<T>, order: seq<nat>) {
    && |x| == |y| && Permutes(order, |x|)
    && forall i :: 0 <= i < |x| ==> y[order[i]] == x[i]
  }

  function Skip(k: nat, i: nat): nat {
    if i < k then i else i + 1
  }

  lemma {:induction false} MatchUp<T>(x: seq<T>, y: seq<T>) returns (order: seq<nat>)
    requires multiset(x) == multiset(y)
    ensures Rearranged(x, y, order)
  {
    assert |x| == |multiset(x)| && |y| == |multiset(y)|;
    order := [];
    if x != [] {
      assert x[0] in multiset(y);
      var k :| 0 <= k < |y| && y[k] == x[0];
      WithoutOne(x, y, k);
      var inner := MatchUp(x[1..], y[..k] + y[k + 1..]);
      order := PutBack(x, y, k, inner);
    }
  }

  lemma WithoutOne<T>(x: seq<T>, y: seq<T>, k: nat)
    requires multiset(x) == multiset(y) && x != [] && k < |y| && y[k] == x[0]
    ensures multiset(x[1..]) == multiset(y[..k] + y[k + 1..])
  {
    assert x == [x[0]] + x[1..];
    assert y == (y[..k] + [y[k]]) + y[k + 1..];
    assert multiset(y) == multiset(y[..k]) + multiset{y[k]} + multiset(y[k + 1..]);
    assert multiset(x[1..]) == multiset(x) - multiset{x[0]};
  }

  lemma PutBack<T>(x: seq<T>, y: seq<T>, k: nat, inner: seq<nat>) returns (order: seq<nat>)
    requires x != [] && k < |y| && y[k] == x[0] && Rearranged(x[1..], y[..k] + y[k + 1..], inner)
    ensures Rearranged(x, y, order)
  {
    var rest := y[..k] + y[k + 1..];
    order := [k] + seq(|inner|, i requires 0 <= i < |inner| => Skip(k, inner[i]));
    forall i | 0 < i < |x| ensures order[i] < |x| && y[order[i]] == x[i] && order[i] != k {
      assert order[i] == Skip(k, inner[i - 1]) && rest[inner[i - 1]] == x[1..][i - 1];
    }
  }

  /** One by one, in some order, the kept declarations of the two modules mean the same. */
  ghost predicate SameDeclarations(a: Module, b: Module, locals: map<string, string>, globals: map<string, string>,
                                   nodes: map<string, string>)
  {
    exists order: seq<nat> :: SameInOrder(a, b, locals, globals, nodes, order)
  }

  ghost predicate SameInOrder(a: Module, b: Module, locals: map<string, string>, globals: map<string, string>,
                              nodes: map<string, string>, order: seq<nat>)
  {
    && |KeptDeclarations(a)| == |KeptDeclarations(b)| && Permutes(order, |KeptDeclarations(a)|)
    && forall i :: 0 <= i < |order| ==>
                     SameMeaning(a, b, locals, globals, nodes, KeptDeclarations(a)[i], KeptDeclarations(b)[order[i]])
  }

  lemma DeclarationsTranslate(a: Module, p: Names, x: seq<seq<Out>>, b: Module, q: Names, y: seq<seq<Out>>)
    requires Distinct(p.locals) && Distinct(p.globals) && Distinct(p.nodes)
    requires ReadsAll(a, p, KeptDeclarations(a), x) && ReadsAll(b, q, KeptDeclarations(b), y) && multiset(x) == multiset(y)
    ensures SameDeclarations(a, b, PairUp(p.locals, q.locals), PairUp(p.globals, q.globals), PairUp(p.nodes, q.nodes))
  {
    var l, g, n := PairUp(p.locals, q.locals), PairUp(p.globals, q.globals), PairUp(p.nodes, q.nodes);
    var order := MatchUp(x, y);
    forall i | 0 <= i < |order| ensures SameMeaning(a, b, l, g, n, KeptDeclarations(a)[i], KeptDeclarations(b)[order[i]]) {
      LinesTranslate(a, p, KeptDeclarations(a)[i], b, q, KeptDeclarations(b)[order[i]], x[i]);
    }
    assert SameInOrder(a, b, l, g, n, order);
  }

  ghost function PairAll(ls: seq<seq<string>>, ks: seq<seq<string>>): seq<map<string, string>>
    requires |ls| == |ks| && forall k :: 0 <= k < |ls| ==> Distinct(ls[k])
  {
    seq(|ls|, k requires 0 <= k < |ls| => PairUp(ls[k], ks[k]))
  }

  lemma PairAllOneToOne(ls: seq<seq<string>>, ks: seq<seq<string>>)
    requires |ls| == |ks|
    requires forall k :: 0 <= k < |ls| ==> Distinct(ls[k])
    requires forall k :: 0 <= k < |ks| ==> Distinct(ks[k])
    ensures forall k :: 0 <= k < |ls| ==> OneToOne(PairAll(ls, ks)[k])
  {
    forall k | 0 <= k < |ls| ensures OneToOne(PairAll(ls, ks)[k]) {
      PairUpOneToOne(ls[k], ks[k]);
    }
  }

  lemma CodeTranslates(a: Module, p: Names, ls: seq<seq<string>>, b: Module, q: Names, ks: seq<seq<string>>, lines: seq<seq<Out>>)
    requires CodeReads(a, ls, p.globals, p.nodes, a.code, lines) && CodeReads(b, ks, q.globals, q.nodes, b.code, lines)
    requires Distinct(p.globals) && Distinct(p.nodes) && forall k :: 0 <= k < |ls| ==> Distinct(ls[k])
    requires TypesClosed(a) && TypesClosed(b)
    ensures |ls| == |ks| && SameCode(a, b, PairAll(ls, ks), PairUp(p.globals, q.globals), PairUp(p.nodes, q.nodes))
  {
    forall i | 0 <= i < |a.code| ensures a.code[i].Begins() == b.code[i].Begins() {
      BeginningsShow(a, ls, p.globals, p.nodes, a.code, lines, i);
      BeginningsShow(b, ks, q.globals, q.nodes, b.code, lines, i);
    }
    SameFunctionOf(a.code, b.code);
    var locals, globals, nodes := PairAll(ls, ks), PairUp(p.globals, q.globals), PairUp(p.nodes, q.nodes);
    forall i | 0 <= i < |a.code|
      ensures SameMeaning(a, b, locals[FunctionOf(a.code, i)], globals, nodes, a.code[i].tokens, b.code[i].tokens)
    {
      var k := FunctionOf(a.code, i);
      LinesTranslate(a, p.(locals := ls[k]), a.code[i].tokens, b, q.(locals := ks[k]), b.code[i].tokens, lines[i]);
    }
  }

  lemma InstructionsTranslate(a: Module, ra: map<string, nat>, ls: seq<seq<string>>, p: Names, x: seq<seq<Out>>,
                              b: Module, rb: map<string, nat>, ks: seq<seq<string>>, q: Names, y: seq<seq<Out>>,
                              form: CanonicalForm)
    requires TypesClosed(a) && TypesClosed(b)
    requires InstructionsRead(a, ra, form, ls, p, x) && InstructionsRead(b, rb, form, ks, q, y)
    ensures |ls| == |ks| && SameInstructions(a, ra, b, rb, PairAll(ls, ks), PairUp(p.globals, q.globals), PairUp(p.nodes, q.nodes))
  {
    CodeTranslates(a, p, ls, b, q, ks, form.lines);
    DeclarationsTranslate(a, p, x, b, q, y);
    NodesTranslate(a, ra, p, b, rb, q, form.metadata);
  }

  ghost predicate SameInstructions(a: Module, ra: map<string, nat>, b: Module, rb: map<string, nat>,
                                   locals: seq<map<string, string>>, globals: map<string, string>, nodes: map<string, string>)
  {
    && SameCode(a, b, locals, globals, nodes)
    && SameDeclarations(a, b, locals[|locals| - 1], globals, nodes)
    && SameNodes(a, ra, b, rb, locals[|locals| - 1], globals, nodes)
  }

  /** Equal instructions texts come from instructions, declarations and metadata that mean the same. */
  lemma InstructionsSound(a: Module, ra: map<string, nat>, b: Module, rb: map<string, nat>)
    returns (locals: seq<map<string, string>>, globals: map<string, string>, nodes: map<string, string>)
    requires TypesClosed(a) && TypesClosed(b)
    requires Instructions(a, ra).Some? && Instructions(a, ra) == Instructions(b, rb)
    ensures OneToOne(globals) && OneToOne(nodes) && forall k :: 0 <= k < |locals| ==> OneToOne(locals[k])
    ensures SameInstructions(a, ra, b, rb, locals, globals, nodes)
  {
    var ls, p, x := InstructionsShow(a, ra);
    var ks, q, y := InstructionsShow(b, rb);
    InstructionsTranslate(a, ra, ls, p, x, b, rb, ks, q, y, Instructions(a, ra).value);
    PairUpOneToOne(p.globals, q.globals);
    PairUpOneToOne(p.nodes, q.nodes);
    PairAllOneToOne(ls, ks);
    locals, globals, nodes := PairAll(ls, ks), PairUp(p.globals, q.globals), PairUp(p.nodes, q.nodes);
  }

  // ---------------------------------------------------------------- why types must be closed

  const BODY: seq<Token> := [Text("{ "), Percent("x"), Text(" }")]

  function SecondLine(z: string): seq<Token> {
    [Text("define g "), Percent("t"), Percent(z)]
  }

  /** Two functions that use a type whose body names a local; the second function also names `z`. */
  function OpenModule(z: string): Module {
    Module(map["t" := BODY], map[], map[], [], [], [Line([Text("define f "), Percent("t")]), Line(SecondLine(z))], [])
  }

  const LAYOUT: seq<Out> := [OText("{ "), OLocal(0), OText(" }")]

  lemma RewriteOneMore(m: Module, s: State, t: Token, rest: seq<Token>)
    ensures
      var w := RewriteToken(m, s, t);
      var v := Rewrite(m, w.state, rest);
      Rewrite(m, s, [t] + rest) == Written(v.state, w.out + v.out)
  {
    assert ([t] + rest)[1..] == rest;
  }

  lemma OpenBody(m: Module, s: State)
    requires m.types == map["t" := BODY] && s.locals == map[]
    ensures Rewrite(m, s, BODY) == Written(s.(locals := map["x" := 0]), LAYOUT)
  {
    var u := s.(locals := map["x" := 0]);
    assert BODY == [BODY[0]] + [BODY[1], BODY[2]] && [BODY[1], BODY[2]] == [BODY[1]] + [BODY[2]] && [BODY[2]] == [BODY[2]] + [];
    assert "x" !in m.types;
    RewriteOneMore(m, u, BODY[2], []);
    RewriteOneMore(m, s, BODY[1], [BODY[2]]);
    RewriteOneMore(m, s, BODY[0], [BODY[1], BODY[2]]);
  }

  /** The layout of the type keeps the number that its local had in the first function. */
  lemma OpenLayout(m: Module)
    requires m.types == map["t" := BODY]
    ensures TypeLayout(m, INITIAL, "t") == Written(INITIAL.(locals := map["x" := 0], layouts := map["t" := LAYOUT]), LAYOUT)
  {
    OpenBody(m, INITIAL.(active := {"t"}));
    assert INITIAL.active + {"t"} == {"t"} && {"t"} - {"t"} == {};
  }

  lemma FirstFunction(m: Module)
    requires m.types == map["t" := BODY]
    ensures Rewrite(m, INITIAL, [Text("define f "), Percent("t")])
         == Written(INITIAL.(locals := map["x" := 0], layouts := map["t" := LAYOUT]), [OText("define f ")] + LAYOUT)
  {
    OpenLayout(m);
    var u := TypeLayout(m, INITIAL, "t").state;
    assert [Percent("t")] == [Percent("t")] + [];
    RewriteOneMore(m, INITIAL, Percent("t"), []);
    RewriteOneMore(m, INITIAL, Text("define f "), [Percent("t")]);
    assert LAYOUT + [] == LAYOUT;
  }

  lemma SecondFunction(m: Module, s: State, z: string)
    requires m.types == map["t" := BODY] && z != "t" && s.layouts == map["t" := LAYOUT] && s.locals == map[]
    ensures Rewrite(m, s, SecondLine(z)) == Written(s.(locals := map[z := 0]), [OText("define g ")] + LAYOUT + [OLocal(0)])
  {
    var u := s.(locals := map[z := 0]);
    assert SecondLine(z) == [Text("define g ")] + [Percent("t"), Percent(z)];
    assert [Percent("t"), Percent(z)] == [Percent("t")] + [Percent(z)] && [Percent(z)] == [Percent(z)] + [];
    RewriteOneMore(m, s, Percent(z), []);
    RewriteOneMore(m, s, Percent("t"), [Percent(z)]);
    RewriteOneMore(m, s, Text("define g "), [Percent("t"), Percent(z)]);
  }

  lemma OpenText(z: string)
    requires z != "t"
    ensures Instructions(OpenModule(z), map[])
         == Some(CanonicalForm([[OText("define f ")] + LAYOUT, [OText("define g ")] + LAYOUT + [OLocal(0)]], multiset{}, []))
  {
    var m := OpenModule(z);
    var first, second := m.code[0], m.code[1];
    assert first.Begins() && second.Begins();
    FirstFunction(m);
    var u := Rewrite(m, INITIAL, first.tokens).state;
    SecondFunction(m, u.(locals := map[]), z);
    var v := u.(locals := map[z := 0]);
    assert AtLine(INITIAL, first) == INITIAL && AtLine(u, second) == u.(locals := map[]);
    assert m.code[1..][0] == second && m.code[1..][1..] == [];
    assert RewriteCode(m, v, []) == Lines(v, []);
    var out := [OText("define g ")] + LAYOUT + [OLocal(0)];
    assert RewriteCode(m, u, m.code[1..]) == Lines(v, [out]);
    assert RewriteCode(m, INITIAL, m.code) == Lines(v, [[OText("define f ")] + LAYOUT, out]);
  }

  lemma ExpandOneMore(m: Module, depth: nat, t: Token, rest: seq<Token>)
    requires ExpandToken(m, depth, t).Some? && Expand(m, depth, rest).Some?
    ensures Expand(m, depth, [t] + rest) == Some(ExpandToken(m, depth, t).value + Expand(m, depth, rest).value)
  {
    assert ([t] + rest)[1..] == rest;
  }

  function Meaning(z: string): seq<Symbol> {
    [STextual("define g "), STextual("{ "), SLocal("x"), STextual(" }"), SLocal(z)]
  }

  lemma OpenType(m: Module)
    requires m.types == map["t" := BODY]
    ensures ExpandToken(m, 1, Percent("t")) == Some([STextual("{ "), SLocal("x"), STextual(" }")])
  {
    assert BODY == [Text("{ ")] + [Percent("x"), Text(" }")] && [Percent("x"), Text(" }")] == [Percent("x")] + [Text(" }")];
    assert "x" !in m.types;
    ExpandOne(m, 0, Text(" }"));
    ExpandOneMore(m, 0, Percent("x"), [Text(" }")]);
    ExpandOneMore(m, 0, Text("{ "), [Percent("x"), Text(" }")]);
    assert Expand(m, 0, BODY).value == [STextual("{ "), SLocal("x"), STextual(" }")];
  }

  lemma OpenMeaning(z: string)
    requires z != "t"
    ensures Means(OpenModule(z), SecondLine(z), Meaning(z))
  {
    var m := OpenModule(z);
    OpenType(m);
    assert SecondLine(z) == [Text("define g ")] + [Percent("t"), Percent(z)];
    assert [Percent("t"), Percent(z)] == [Percent("t")] + [Percent(z)];
    ExpandOne(m, 1, Percent(z));
    ExpandOneMore(m, 1, Percent("t"), [Percent(z)]);
    ExpandOneMore(m, 1, Text("define g "), [Percent("t"), Percent(z)]);
    assert Expand(m, 1, SecondLine(z)).value == Meaning(z);
    assert Spells(m, 1, SecondLine(z), Meaning(z));
  }

  lemma OpenFunctions(z: string)
    ensures var code := OpenModule(z).code; Defines(code) == 2 && FunctionOf(code, 1) == 2
  {
    var code := OpenModule(z).code;
    assert code[0].Begins() && code[1].Begins() && code[1..][0] == code[1] && code[1..][1..] == [];
    assert Defines(code[1..]) == 1 && FunctionOf(code[1..], 0) == 1;
  }

  /** No renaming of locals makes the `x` of a type both an `x` and another name. */
  lemma NoRenaming(f: map<string, string>, globals: map<string, string>, nodes: map<string, string>)
    requires SameMeaning(OpenModule("y"), OpenModule("x"), f, globals, nodes, SecondLine("y"), SecondLine("x"))
    ensures !Apart(f, "x", "y")
  {
    var a, b := OpenModule("y"), OpenModule("x");
    OpenMeaning("x");
    OpenMeaning("y");
    var u, v :| Means(a, SecondLine("y"), u) && Means(b, SecondLine("x"), v) && TranslatesAll(f, globals, nodes, u, v);
    MeansOnce(a, SecondLine("y"), u, Meaning("y"));
    MeansOnce(b, SecondLine("x"), v, Meaning("x"));
    assert Translates(f, globals, nodes, u[2], v[2]) && Translates(f, globals, nodes, u[4], v[4]);
  }

  /** With a type that names a local, equal texts can come from code that no renaming of locals relates. */
  lemma ClosedTypesMatter(locals: seq<map<string, string>>, globals: map<string, string>, nodes: map<string, string>)
    ensures Instructions(OpenModule("y"), map[]).Some? && Instructions(OpenModule("y"), map[]) == Instructions(OpenModule("x"), map[])
    ensures !(SameCode(OpenModule("y"), OpenModule("x"), locals, globals, nodes) && OneToOne(locals[2]))
  {
    OpenText("x");
    OpenText("y");
    OpenFunctions("y");
    if SameCode(OpenModule("y"), OpenModule("x"), locals, globals, nodes) {
      NoRenaming(locals[2], globals, nodes);
    }
  }
}
