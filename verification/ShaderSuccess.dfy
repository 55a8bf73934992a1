/**
 When a module has canonical texts: exactly when its reflection roots resolve, its attribute groups are well formed,
 its types do not contain themselves, and every metadata node that a text reaches exists. All of it is said of the
 module's tokens and tables.
 */
module ShaderSuccess {
  import opened Common
  import opened ShaderIr
  import opened ShaderSoundness

  // ---------------------------------------------------------------- writable text

  /** Some depth writes the text out: its attribute groups are well formed and its types end. */
  ghost predicate Writable(m: Module, tokens: seq<Token>) {
    exists depth: nat :: Expand(m, depth, tokens).Some?
  }

  /** A text with its types written out, if that is possible. */
  ghost function Meaning(m: Module, tokens: seq<Token>): seq<Symbol> {
    if Writable(m, tokens) then (var depth: nat :| Expand(m, depth, tokens).Some?; Expand(m, depth, tokens).value) else []
  }

  lemma MeaningIs(m: Module, depth: nat, tokens: seq<Token>)
    requires Expand(m, depth, tokens).Some?
    ensures Writable(m, tokens) && Meaning(m, tokens) == Expand(m, depth, tokens).value
  {
    var d: nat :| Expand(m, d, tokens).Some? && Meaning(m, tokens) == Expand(m, d, tokens).value;
    if d <= depth { ExpandDeeper(m, d, depth, tokens); } else { ExpandDeeper(m, depth, d, tokens); }
  }

  /** No open type can be written out at a smaller depth, so none of them can be met again. */
  ghost predicate Above(m: Module, active: set<string>, depth: nat) {
    forall name :: name in active ==> NotYet(m, depth, name)
  }

  ghost predicate NotYet(m: Module, depth: nat, name: string) {
    name in m.types && forall d: nat :: d < depth ==> Expand(m, d, m.types[name]).None?
  }

  lemma {:induction false} LeastDepth(m: Module, depth: nat, tokens: seq<Token>) returns (least: nat)
    requires Expand(m, depth, tokens).Some?
    ensures least <= depth && Expand(m, least, tokens).Some? && forall d: nat :: d < least ==> Expand(m, d, tokens).None?
    decreases depth
  {
    least := depth;
    if d: nat :| d < depth && Expand(m, d, tokens).Some? { least := LeastDepth(m, d, tokens); }
  }

  /** Writable text is written without a failure. */
  lemma {:induction false} WritesValid(m: Module, s: State, depth: nat, tokens: seq<Token>)
    requires s.valid && Expand(m, depth, tokens).Some? && Above(m, s.active, depth)
    ensures Rewrite(m, s, tokens).state.valid
    decreases |m.types.Keys - s.active|, |tokens|, 0
  {
    if tokens != [] {
      TokenWritesValid(m, s, depth, tokens[0]);
      WritesValid(m, RewriteToken(m, s, tokens[0]).state, depth, tokens[1..]);
    }
  }

  lemma {:induction false} TokenWritesValid(m: Module, s: State, depth: nat, t: Token)
    requires s.valid && ExpandToken(m, depth, t).Some? && Above(m, s.active, depth)
    ensures RewriteToken(m, s, t).state.valid
    decreases |m.types.Keys - s.active|, 0, 1
  {
    if t.Percent? && t.name in m.types && t.name !in s.layouts {
      assert NotYet(m, depth, t.name) || t.name !in s.active;
      var least := LeastDepth(m, depth - 1, m.types[t.name]);
      OneMoreActive(m.types.Keys, s.active, t.name);
      var u := s.(active := s.active + {t.name});
      forall name | name in u.active ensures NotYet(m, least, name) {
        if name != t.name { assert NotYet(m, depth, name); }
      }
      WritesValid(m, u, least, m.types[t.name]);
    }
  }

  // ---------------------------------------------------------------- what writing takes in

  ghost predicate HasNode(symbols: seq<Symbol>, name: string) {
    SNode(name) in symbols
  }

  ghost predicate HasGlobal(symbols: seq<Symbol>, name: string) {
    SGlobal(name) in symbols || SIntrinsic(name) in symbols
  }

  /** Once its layout is known, a type's text is writable, and its nodes and globals have been taken in. */
  ghost predicate NotedType(m: Module, s: State, name: string) {
    name in s.layouts ==> name in m.types && Writable(m, m.types[name]) && Within(s, Meaning(m, m.types[name]))
  }

  ghost predicate Within(s: State, symbols: seq<Symbol>) {
    && (forall name :: HasNode(symbols, name) ==> name in s.metadata)
    && (forall g :: HasGlobal(symbols, g) ==> g in s.used)
  }

  ghost predicate Noted(m: Module, s: State) {
    forall name :: NotedType(m, s, name)
  }

  /** The nodes on the worklist and the globals in use are those before and the text's. */
  ghost predicate TakesIn(s: State, u: State, symbols: seq<Symbol>) {
    && (forall name :: name in u.metadata <==> name in s.metadata || HasNode(symbols, name))
    && (forall g :: g in u.used <==> g in s.used || HasGlobal(symbols, g))
  }

  lemma TakesInJoin(s: State, u: State, v: State, x: seq<Symbol>, y: seq<Symbol>)
    requires TakesIn(s, u, x) && TakesIn(u, v, y)
    ensures TakesIn(s, v, x + y)
  {
  }

  lemma NotedLater(m: Module, s: State, u: State, symbols: seq<Symbol>)
    requires Noted(m, s) && TakesIn(s, u, symbols) && u.layouts == s.layouts
    ensures Noted(m, u)
  {
    forall name ensures NotedType(m, u, name) { assert NotedType(m, s, name); }
  }

  /** What is written without a failure is writable, and is taken in. */
  lemma {:induction false} ValidTakesIn(m: Module, s: State, tokens: seq<Token>) returns (depth: nat)
    requires Noted(m, s) && NodesNumbered(s) && Rewrite(m, s, tokens).state.valid
    ensures Expand(m, depth, tokens).Some?
    ensures
      var u := Rewrite(m, s, tokens).state;
      Noted(m, u) && TakesIn(s, u, Expand(m, depth, tokens).value)
    decreases |m.types.Keys - s.active|, |tokens|, 0
  {
    depth := 0;
    if tokens != [] {
      var t := tokens[0];
      var u := RewriteToken(m, s, t).state;
      ValidOnce(m, u, tokens[1..]);
      TokenKeepsNodes(m, s, t);
      var d := TokenTakesIn(m, s, t);
      var e := ValidTakesIn(m, u, tokens[1..]);
      depth := if d < e then e else d;
      TokenDeeper(m, d, depth, t);
      ExpandDeeper(m, e, depth, tokens[1..]);
      TakesInJoin(s, u, Rewrite(m, u, tokens[1..]).state, ExpandToken(m, depth, t).value, Expand(m, depth, tokens[1..]).value);
    }
  }

  lemma TokenDeeper(m: Module, d: nat, e: nat, t: Token)
    requires d <= e && ExpandToken(m, d, t).Some?
    ensures ExpandToken(m, e, t) == ExpandToken(m, d, t)
  {
    if t.Percent? && t.name in m.types { ExpandDeeper(m, d - 1, e - 1, m.types[t.name]); }
  }

  lemma {:induction false} TokenTakesIn(m: Module, s: State, t: Token) returns (depth: nat)
    requires Noted(m, s) && NodesNumbered(s) && RewriteToken(m, s, t).state.valid
    ensures ExpandToken(m, depth, t).Some?
    ensures
      var u := RewriteToken(m, s, t).state;
      Noted(m, u) && TakesIn(s, u, ExpandToken(m, depth, t).value)
    decreases |m.types.Keys - s.active|, 0, 1
  {
    if t.Percent? && t.name in m.types {
      depth := LayoutTakesIn(m, s, t.name);
      depth := depth + 1;
    } else {
      depth := 0;
      PlainTakesIn(m, s, t);
    }
  }

  lemma PlainTakesIn(m: Module, s: State, t: Token)
    requires Noted(m, s) && NodesNumbered(s) && RewriteToken(m, s, t).state.valid && !(t.Percent? && t.name in m.types)
    ensures
      var u := RewriteToken(m, s, t).state;
      ExpandToken(m, 0, t).Some? && TakesIn(s, u, ExpandToken(m, 0, t).value) && Noted(m, u)
  {
    var u := RewriteToken(m, s, t).state;
    NotedLater(m, s, u, ExpandToken(m, 0, t).value);
  }

  lemma {:induction false} LayoutTakesIn(m: Module, s: State, name: string) returns (depth: nat)
    requires name in m.types && Noted(m, s) && NodesNumbered(s) && TypeLayout(m, s, name).state.valid
    ensures Expand(m, depth, m.types[name]).Some?
    ensures
      var u := TypeLayout(m, s, name).state;
      Noted(m, u) && TakesIn(s, u, Expand(m, depth, m.types[name]).value)
    decreases |m.types.Keys - s.active|, 0, 0
  {
    if name in s.layouts {
      assert NotedType(m, s, name);
      depth :| Expand(m, depth, m.types[name]).Some?;
      MeaningIs(m, depth, m.types[name]);
    } else {
      OneMoreActive(m.types.Keys, s.active, name);
      var u := s.(active := s.active + {name});
      forall other ensures NotedType(m, u, other) { assert NotedType(m, s, other); }
      depth := ValidTakesIn(m, u, m.types[name]);
      MeaningIs(m, depth, m.types[name]);
      LayoutNoted(m, Rewrite(m, u, m.types[name]), s, name);
    }
  }

  lemma LayoutNoted(m: Module, w: Written, s: State, name: string)
    requires name in m.types && Noted(m, w.state) && Writable(m, m.types[name]) && Within(w.state, Meaning(m, m.types[name]))
    ensures Noted(m, w.state.(active := w.state.active - {name}, layouts := Emplace(w.state.layouts, name, w.out)))
  {
    var u := w.state.(active := w.state.active - {name}, layouts := Emplace(w.state.layouts, name, w.out));
    forall other ensures NotedType(m, u, other) { assert NotedType(m, w.state, other); }
  }

  // ---------------------------------------------------------------- texts

  /** A state between texts that has not failed. */
  ghost predicate Between(m: Module, s: State) {
    s.valid && s.active == {} && NodesNumbered(s) && Noted(m, s)
  }

  /** One text from such a state: it is written without a failure exactly when it is writable. */
  lemma TextWritten(m: Module, s: State, tokens: seq<Token>)
    requires Between(m, s)
    ensures var u := Rewrite(m, s, tokens).state; u.valid <==> Writable(m, tokens)
    ensures
      var u := Rewrite(m, s, tokens).state;
      u.valid ==> Between(m, u) && TakesIn(s, u, Meaning(m, tokens))
  {
    RewriteKeepsNodes(m, s, tokens);
    if Writable(m, tokens) {
      var depth: nat :| Expand(m, depth, tokens).Some?;
      WritesValid(m, s, depth, tokens);
    }
    if Rewrite(m, s, tokens).state.valid {
      var depth := ValidTakesIn(m, s, tokens);
      MeaningIs(m, depth, tokens);
    }
  }

  ghost predicate AllWritable(m: Module, texts: seq<seq<Token>>) {
    forall i :: 0 <= i < |texts| ==> Writable(m, texts[i])
  }

  ghost predicate Mentions(m: Module, texts: seq<seq<Token>>, name: string) {
    exists i :: 0 <= i < |texts| && HasNode(Meaning(m, texts[i]), name)
  }

  ghost predicate Uses(m: Module, texts: seq<seq<Token>>, g: string) {
    exists i :: 0 <= i < |texts| && HasGlobal(Meaning(m, texts[i]), g)
  }

  /** Several texts take in what each of them does. */
  ghost predicate TakesInAll(m: Module, s: State, u: State, texts: seq<seq<Token>>) {
    && (forall name :: name in u.metadata <==> name in s.metadata || Mentions(m, texts, name))
    && (forall g :: g in u.used <==> g in s.used || Uses(m, texts, g))
  }

  lemma MentionsFirst(m: Module, texts: seq<seq<Token>>, name: string)
    requires texts != []
    ensures Mentions(m, texts, name) <==> HasNode(Meaning(m, texts[0]), name) || Mentions(m, texts[1..], name)
    ensures Uses(m, texts, name) <==> HasGlobal(Meaning(m, texts[0]), name) || Uses(m, texts[1..], name)
  {
    var rest := texts[1..];
    if i :| 0 <= i < |texts| && HasNode(Meaning(m, texts[i]), name) { assert i > 0 ==> rest[i - 1] == texts[i]; }
    if i :| 0 <= i < |texts| && HasGlobal(Meaning(m, texts[i]), name) { assert i > 0 ==> rest[i - 1] == texts[i]; }
    if i :| 0 <= i < |rest| && HasNode(Meaning(m, rest[i]), name) { assert texts[i + 1] == rest[i]; }
    if i :| 0 <= i < |rest| && HasGlobal(Meaning(m, rest[i]), name) { assert texts[i + 1] == rest[i]; }
  }

  lemma TakesInFirst(m: Module, s: State, u: State, v: State, texts: seq<seq<Token>>)
    requires texts != [] && TakesIn(s, u, Meaning(m, texts[0])) && TakesInAll(m, u, v, texts[1..])
    ensures TakesInAll(m, s, v, texts)
  {
    forall name ensures Mentions(m, texts, name) <==> HasNode(Meaning(m, texts[0]), name) || Mentions(m, texts[1..], name)
                ensures Uses(m, texts, name) <==> HasGlobal(Meaning(m, texts[0]), name) || Uses(m, texts[1..], name)
    {
      MentionsFirst(m, texts, name);
    }
  }

  lemma AllWritableFirst(m: Module, texts: seq<seq<Token>>)
    requires texts != []
    ensures AllWritable(m, texts) <==> Writable(m, texts[0]) && AllWritable(m, texts[1..])
  {
    if AllWritable(m, texts[1..]) && Writable(m, texts[0]) {
      forall i | 0 <= i < |texts| ensures Writable(m, texts[i]) { assert i > 0 ==> texts[1..][i - 1] == texts[i]; }
    }
  }

  lemma {:induction false} TextsWritten(m: Module, s: State, texts: seq<seq<Token>>)
    requires Between(m, s)
    ensures
      var u := RewriteAll(m, s, texts).state;
      && (u.valid <==> AllWritable(m, texts)) && (u.valid ==> Between(m, u) && TakesInAll(m, s, u, texts))
    decreases |texts|
  {
    if texts != [] {
      var u := Rewrite(m, s, texts[0]).state;
      TextWritten(m, s, texts[0]);
      AllWritableFirst(m, texts);
      if u.valid {
        TextsWritten(m, u, texts[1..]);
        if RewriteAll(m, u, texts[1..]).state.valid { TakesInFirst(m, s, u, RewriteAll(m, u, texts[1..]).state, texts); }
      } else {
        AllValidOnce(m, u, texts[1..]);
      }
    }
  }

  /** The text of the code, line by line. */
  function CodeTexts(code: seq<Line>): seq<seq<Token>> {
    if code == [] then [] else [code[0].tokens] + CodeTexts(code[1..])
  }

  lemma {:induction false} CodeWritten(m: Module, s: State, code: seq<Line>)
    requires Between(m, s)
    ensures
      var u := RewriteCode(m, s, code).state;
      && (u.valid <==> AllWritable(m, CodeTexts(code))) && (u.valid ==> Between(m, u) && TakesInAll(m, s, u, CodeTexts(code)))
    decreases |code|
  {
    if code != [] {
      var texts, t := CodeTexts(code), AtLine(s, code[0]);
      assert texts[0] == code[0].tokens && texts[1..] == CodeTexts(code[1..]);
      LineBetween(m, s, code[0]);
      var u := Rewrite(m, t, texts[0]).state;
      TextWritten(m, t, texts[0]);
      AllWritableFirst(m, texts);
      if u.valid {
        CodeWritten(m, u, code[1..]);
        if RewriteCode(m, u, code[1..]).state.valid { TakesInFirst(m, t, u, RewriteCode(m, u, code[1..]).state, texts); }
      } else {
        CodeValidOnce(m, u, code[1..]);
      }
    }
  }

  lemma LineBetween(m: Module, s: State, line: Line)
    requires Between(m, s)
    ensures Between(m, AtLine(s, line)) && AtLine(s, line).metadata == s.metadata && AtLine(s, line).used == s.used
  {
    forall name ensures NotedType(m, AtLine(s, line), name) { assert NotedType(m, s, name); }
  }

  // ---------------------------------------------------------------- declarations

  function GlobalNames(symbols: seq<Symbol>): set<string> {
    set x | x in symbols && (x.SGlobal? || x.SIntrinsic?) :: x.name
  }

  ghost function CodeGlobals(m: Module, texts: seq<seq<Token>>): set<string> {
    if texts == [] then {} else GlobalNames(Meaning(m, texts[0])) + CodeGlobals(m, texts[1..])
  }

  lemma {:induction false} CodeGlobalsAre(m: Module, texts: seq<seq<Token>>, g: string)
    ensures g in CodeGlobals(m, texts) <==> Uses(m, texts, g)
  {
    if texts != [] {
      MentionsFirst(m, texts, g);
      CodeGlobalsAre(m, texts[1..], g);
      GlobalNamesAre(Meaning(m, texts[0]), g);
    }
  }

  lemma GlobalNamesAre(symbols: seq<Symbol>, g: string)
    ensures g in GlobalNames(symbols) <==> HasGlobal(symbols, g)
  {
    if SGlobal(g) in symbols { assert SGlobal(g).name == g; }
    if SIntrinsic(g) in symbols { assert SIntrinsic(g).name == g; }
  }

  /** The declarations of globals that the code uses, or that a declaration kept before uses. */
  ghost function Wanted(m: Module, used: set<string>, all: seq<Declaration>): seq<seq<Token>>
    decreases |all|
  {
    if all == [] then []
    else if all[0].declared !in used then Wanted(m, used, all[1..])
    else [all[0].tokens] + Wanted(m, used + GlobalNames(Meaning(m, all[0].tokens)), all[1..])
  }

  lemma {:induction false} KeptIsWanted(m: Module, s: State, all: seq<Declaration>)
    requires Between(m, s) && (AllWritable(m, Kept(m, s, all)) || AllWritable(m, Wanted(m, s.used, all)))
    ensures Kept(m, s, all) == Wanted(m, s.used, all)
    decreases |all|
  {
    if all != [] {
      if all[0].declared !in s.used {
        KeptIsWanted(m, s, all[1..]);
      } else {
        var tokens := all[0].tokens;
        var u := Rewrite(m, s, tokens).state;
        var kept, wanted := Kept(m, u, all[1..]), Wanted(m, s.used + GlobalNames(Meaning(m, tokens)), all[1..]);
        assert ([tokens] + kept)[1..] == kept && ([tokens] + wanted)[1..] == wanted;
        if AllWritable(m, [tokens] + kept) { AllWritableFirst(m, [tokens] + kept); } else { AllWritableFirst(m, [tokens] + wanted); }
        TextWritten(m, s, tokens);
        forall g ensures g in u.used <==> g in s.used + GlobalNames(Meaning(m, tokens)) { GlobalNamesAre(Meaning(m, tokens), g); }
        assert u.used == s.used + GlobalNames(Meaning(m, tokens));
        KeptIsWanted(m, u, all[1..]);
      }
    }
  }

  // ---------------------------------------------------------------- metadata

  /** The node exists, and if it is reflected, the field that holds its name is a string. */
  predicate NodeOk(m: Module, reflected: map<string, nat>, name: string) {
    && name in m.nodes
    && (name in reflected ==>
          var body := m.nodes[name];
          body.List? && reflected[name] < |body.fields| && body.fields[reflected[name]].Quoted?)
  }

  /** A node's text, with its reflection name blanked. */
  function NodeText(m: Module, reflected: map<string, nat>, name: string): seq<Token>
    requires NodeOk(m, reflected, name)
  {
    var body := m.nodes[name];
    BodyTokens(if name in reflected then List(body.fields[reflected[name] := Quoted("\"\"")]) else body)
  }

  lemma NodeTextIs(m: Module, reflected: map<string, nat>, name: string)
    requires name in m.nodes
    ensures BodyText(m, reflected, name).Some? <==> NodeOk(m, reflected, name)
    ensures NodeOk(m, reflected, name) ==> BodyText(m, reflected, name) == Some(NodeText(m, reflected, name))
  {
  }

  ghost predicate Good(m: Module, reflected: map<string, nat>, name: string) {
    NodeOk(m, reflected, name) && Writable(m, NodeText(m, reflected, name))
  }

  ghost predicate Links(m: Module, reflected: map<string, nat>, a: string, b: string) {
    NodeOk(m, reflected, a) && HasNode(Meaning(m, NodeText(m, reflected, a)), b)
  }

  /** A way from a text to a node, each mentioned by the one before. */
  ghost predicate Way(m: Module, reflected: map<string, nat>, texts: seq<seq<Token>>, path: seq<string>) {
    && path != [] && Mentions(m, texts, path[0])
    && forall i :: 0 < i < |path| ==> Onward(m, reflected, path, i)
  }

  ghost predicate Onward(m: Module, reflected: map<string, nat>, path: seq<string>, i: int)
    requires 0 < i < |path|
  {
    Links(m, reflected, path[i - 1], path[i])
  }

  ghost predicate Reached(m: Module, reflected: map<string, nat>, texts: seq<seq<Token>>, name: string) {
    exists path :: Way(m, reflected, texts, path) && path[|path| - 1] == name
  }

  lemma ReachedFirst(m: Module, reflected: map<string, nat>, texts: seq<seq<Token>>, name: string)
    requires Mentions(m, texts, name)
    ensures Reached(m, reflected, texts, name)
  {
    assert Way(m, reflected, texts, [name]);
  }

  lemma ReachedNext(m: Module, reflected: map<string, nat>, texts: seq<seq<Token>>, a: string, b: string)
    requires Reached(m, reflected, texts, a) && Links(m, reflected, a, b)
    ensures Reached(m, reflected, texts, b)
  {
    var path :| Way(m, reflected, texts, path) && path[|path| - 1] == a;
    var longer := path + [b];
    forall i | 0 < i < |longer| ensures Onward(m, reflected, longer, i) {
      if i < |path| { assert Onward(m, reflected, path, i); }
    }
    assert Way(m, reflected, texts, longer);
  }

  /** The worklist from `index` on is done with, in a state that ends at `u`. */
  ghost predicate Worked(m: Module, reflected: map<string, nat>, s: State, u: State, index: nat) {
    && s.metadata <= u.metadata
    && forall i :: index <= i < |u.metadata| ==> WorkedNode(m, reflected, u, u.metadata[i])
  }

  ghost predicate WorkedNode(m: Module, reflected: map<string, nat>, u: State, name: string) {
    Good(m, reflected, name) && forall b :: Links(m, reflected, name, b) ==> b in u.metadata
  }

  /** A worked-off list that holds what the texts mention holds every node reached. */
  lemma {:induction false} ReachedWithin(m: Module, reflected: map<string, nat>, texts: seq<seq<Token>>, path: seq<string>, u: State)
    requires Way(m, reflected, texts, path)
    requires forall name :: Mentions(m, texts, name) ==> name in u.metadata
    requires forall name :: name in u.metadata ==> WorkedNode(m, reflected, u, name)
    ensures path[|path| - 1] in u.metadata
    decreases |path|
  {
    if |path| > 1 {
      var n := |path| - 1;
      var front := path[..n];
      forall i | 0 < i < n ensures Onward(m, reflected, front, i) { assert Onward(m, reflected, path, i); }
      ReachedWithin(m, reflected, texts, front, u);
      assert Onward(m, reflected, path, n) && WorkedNode(m, reflected, u, path[n - 1]);
    }
  }

  /** If the worklist is finished, every node on it was good, and the nodes it mentions are on it too. */
  lemma {:induction false} FinishWorked(m: Module, reflected: map<string, nat>, s: State, index: nat)
    requires Between(m, s) && Ready(m, s, index) && Finish(m, reflected, s, index).ok
    ensures Worked(m, reflected, s, Finish(m, reflected, s, index).state, index)
    decreases |m.nodes.Keys| - index
  {
    if index < |s.metadata| {
      var name := s.metadata[index];
      if Work(m, reflected, s, index).None? { FinishStops(m, reflected, s, index); }
      NodeTextIs(m, reflected, name);
      var tokens := NodeText(m, reflected, name);
      FinishStep(m, reflected, s, index);
      var w := Rewrite(m, s, tokens);
      FinishValidOnce(m, reflected, w.state, index + 1);
      TextWritten(m, s, tokens);
      RewriteKeepsNodes(m, s, tokens);
      FinishWorked(m, reflected, w.state, index + 1);
      WorkedMore(m, reflected, s, w.state, Finish(m, reflected, w.state, index + 1).state, index);
    }
  }

  lemma WorkedMore(m: Module, reflected: map<string, nat>, s: State, t: State, u: State, index: nat)
    requires index < |s.metadata| && s.metadata <= t.metadata && Worked(m, reflected, t, u, index + 1)
    requires Good(m, reflected, s.metadata[index])
    requires TakesIn(s, t, Meaning(m, NodeText(m, reflected, s.metadata[index])))
    ensures Worked(m, reflected, s, u, index)
  {
    assert WorkedNode(m, reflected, u, s.metadata[index]) by {
      forall b | Links(m, reflected, s.metadata[index], b) ensures b in u.metadata { assert b in t.metadata; }
    }
  }

  /** If every node reached is good, the worklist is finished. */
  lemma {:induction false} FinishSucceeds(m: Module, reflected: map<string, nat>, s: State, index: nat, texts: seq<seq<Token>>)
    requires Between(m, s) && Ready(m, s, index)
    requires forall name :: name in s.metadata ==> Reached(m, reflected, texts, name)
    requires AllGood(m, reflected, texts)
    ensures Finish(m, reflected, s, index).ok
    decreases |m.nodes.Keys| - index
  {
    if index < |s.metadata| {
      var name := s.metadata[index];
      assert Reached(m, reflected, texts, name) && Good(m, reflected, name);
      NodeTextIs(m, reflected, name);
      var tokens := NodeText(m, reflected, name);
      FinishStep(m, reflected, s, index);
      TextWritten(m, s, tokens);
      var u := Rewrite(m, s, tokens).state;
      forall b | b in u.metadata ensures Reached(m, reflected, texts, b) {
        if b !in s.metadata { ReachedNext(m, reflected, texts, name, b); }
      }
      FinishSucceeds(m, reflected, u, index + 1, texts);
    }
  }

  // ---------------------------------------------------------------- whole texts

  ghost predicate AllGood(m: Module, reflected: map<string, nat>, texts: seq<seq<Token>>) {
    forall name :: Reached(m, reflected, texts, name) ==> Good(m, reflected, name)
  }

  /** The texts are writable, and so is the body of every node that they reach. */
  ghost predicate Succeeds(m: Module, reflected: map<string, nat>, texts: seq<seq<Token>>) {
    AllWritable(m, texts) && AllGood(m, reflected, texts)
  }

  lemma FinishedWasGood(m: Module, reflected: map<string, nat>, s: State, texts: seq<seq<Token>>, name: string)
    requires Between(m, s) && Finish(m, reflected, s, 0).ok && Reached(m, reflected, texts, name)
    requires forall n :: n in s.metadata <==> Mentions(m, texts, n)
    ensures Good(m, reflected, name)
  {
    FinishWorked(m, reflected, s, 0);
    var u := Finish(m, reflected, s, 0).state;
    var path :| Way(m, reflected, texts, path) && path[|path| - 1] == name;
    ReachedWithin(m, reflected, texts, path, u);
    assert WorkedNode(m, reflected, u, name);
  }

  /** From a state that took in the texts and nothing else, the worklist finishes exactly when every node reached is good. */
  lemma FinishWhen(m: Module, reflected: map<string, nat>, s: State, texts: seq<seq<Token>>)
    requires Between(m, s) && forall name :: name in s.metadata <==> Mentions(m, texts, name)
    ensures Finish(m, reflected, s, 0).ok <==> AllGood(m, reflected, texts)
  {
    if AllGood(m, reflected, texts) {
      forall name | name in s.metadata ensures Reached(m, reflected, texts, name) { ReachedFirst(m, reflected, texts, name); }
      FinishSucceeds(m, reflected, s, 0, texts);
    }
    if Finish(m, reflected, s, 0).ok {
      forall name | Reached(m, reflected, texts, name) ensures Good(m, reflected, name) {
        FinishedWasGood(m, reflected, s, texts, name);
      }
    }
  }

  lemma InitialBetween(m: Module)
    ensures Between(m, INITIAL)
  {
  }

  lemma PropertiesSucceed(m: Module, reflected: map<string, nat>)
    ensures Properties(m, reflected).Some? <==> Succeeds(m, reflected, m.targets + RootTexts(m.roots))
  {
    var texts := m.targets + RootTexts(m.roots);
    InitialBetween(m);
    TextsWritten(m, INITIAL, texts);
    RewriteAllKeepsNodes(m, INITIAL, texts);
    var u := RewriteAll(m, INITIAL, texts).state;
    if u.valid { FinishWhen(m, reflected, u, texts); } else { FinishValidOnce(m, reflected, u, 0); }
  }

  /** The text of the instructions: the code, and the declarations that it needs. */
  ghost function InstructionTexts(m: Module): seq<seq<Token>> {
    var code := CodeTexts(m.code);
    code + Wanted(m, CodeGlobals(m, code), m.declarations)
  }

  lemma TakesInBoth(m: Module, s: State, t: State, u: State, a: seq<seq<Token>>, b: seq<seq<Token>>)
    requires TakesInAll(m, s, t, a) && TakesInAll(m, t, u, b)
    ensures TakesInAll(m, s, u, a + b)
  {
    forall name ensures Mentions(m, a + b, name) <==> Mentions(m, a, name) || Mentions(m, b, name)
                ensures Uses(m, a + b, name) <==> Uses(m, a, name) || Uses(m, b, name)
    {
      MentionsBoth(m, a, b, name);
    }
  }

  lemma MentionsBoth(m: Module, a: seq<seq<Token>>, b: seq<seq<Token>>, name: string)
    ensures Mentions(m, a + b, name) <==> Mentions(m, a, name) || Mentions(m, b, name)
    ensures Uses(m, a + b, name) <==> Uses(m, a, name) || Uses(m, b, name)
  {
    var all := a + b;
    forall i | 0 <= i < |all| ensures all[i] == if i < |a| then a[i] else b[i - |a|] { }
    if i :| 0 <= i < |a| && HasNode(Meaning(m, a[i]), name) { assert all[i] == a[i]; }
    if i :| 0 <= i < |a| && HasGlobal(Meaning(m, a[i]), name) { assert all[i] == a[i]; }
    if i :| 0 <= i < |b| && HasNode(Meaning(m, b[i]), name) { assert all[|a| + i] == b[i]; }
    if i :| 0 <= i < |b| && HasGlobal(Meaning(m, b[i]), name) { assert all[|a| + i] == b[i]; }
  }

  lemma AllWritableBoth(m: Module, a: seq<seq<Token>>, b: seq<seq<Token>>)
    ensures AllWritable(m, a + b) <==> AllWritable(m, a) && AllWritable(m, b)
  {
    var all := a + b;
    if AllWritable(m, all) {
      forall i | 0 <= i < |a| ensures Writable(m, a[i]) { assert all[i] == a[i]; }
      forall i | 0 <= i < |b| ensures Writable(m, b[i]) { assert all[|a| + i] == b[i]; }
    }
  }

  lemma InstructionsSucceed(m: Module, reflected: map<string, nat>)
    ensures Instructions(m, reflected).Some? <==> Succeeds(m, reflected, InstructionTexts(m))
  {
    var code := CodeTexts(m.code);
    var s := RewriteCode(m, INITIAL, m.code).state;
    InitialBetween(m);
    CodeWritten(m, INITIAL, m.code);
    RewriteCodeKeepsNodes(m, INITIAL, m.code);
    RewriteDeclarationsKeepsNodes(m, s, m.declarations);
    DeclarationsAreKept(m, s, m.declarations);
    var wanted, kept := Wanted(m, CodeGlobals(m, code), m.declarations), Kept(m, s, m.declarations);
    var u := RewriteAll(m, s, kept).state;
    AllWritableBoth(m, code, wanted);
    if !s.valid {
      AllValidOnce(m, s, kept);
      FinishValidOnce(m, reflected, u, 0);
    } else {
      forall g ensures g in s.used <==> g in CodeGlobals(m, code) { CodeGlobalsAre(m, code, g); }
      assert s.used == CodeGlobals(m, code);
      TextsWritten(m, s, kept);
      if u.valid || AllWritable(m, wanted) { KeptIsWanted(m, s, m.declarations); }
      if u.valid {
        TakesInBoth(m, INITIAL, s, u, code, kept);
        FinishWhen(m, reflected, u, InstructionTexts(m));
      } else {
        FinishValidOnce(m, reflected, u, 0);
      }
    }
  }
}
