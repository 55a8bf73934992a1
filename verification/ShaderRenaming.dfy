/**
 The canonical form does not depend on names: renaming every local (function by function), global,
 metadata number, named type and attribute group leaves both canonical texts unchanged.
 */
module ShaderRenaming {
  import opened Common
  import opened ShaderIr

  /** A renaming of one name class: names outside the map stay. */
  type Naming = map<string, string>

  function To(f: Naming, name: string): string {
    if name in f then f[name] else name
  }

  /** One function's renaming of each name class. */
  datatype Renaming = Renaming(percent: Naming, at: Naming, bang: Naming, hash: Naming)

  ghost predicate Undoes(back: Naming, f: Naming) {
    forall name {:trigger To(f, name)} :: To(back, To(f, name)) == name
  }

  ghost predicate Invertible(f: Naming) {
    exists back: Naming :: Undoes(back, f)
  }

  function Swap(x: string, y: string, name: string): string {
    if name == x then y else if name == y then x else name
  }

  /** `g` followed by exchanging `x` and `y`, and its inverse. */
  function SwapAfter(g: Naming, undo: Naming, x: string, y: string): Naming {
    map n | n in g.Keys + {To(undo, x), To(undo, y)} :: Swap(x, y, To(g, n))
  }

  function SwapBefore(undo: Naming, x: string, y: string): Naming {
    map n | n in undo.Keys + {x, y} :: To(undo, Swap(x, y, n))
  }

  lemma Swapped(g: Naming, undo: Naming, x: string, y: string, name: string)
    requires Undoes(undo, g)
    ensures To(SwapAfter(g, undo, x, y), name) == Swap(x, y, To(g, name))
    ensures To(SwapBefore(undo, x, y), Swap(x, y, To(g, name))) == name
  {
    assert To(undo, To(g, name)) == name;
    assert Swap(x, y, Swap(x, y, To(g, name))) == To(g, name);
  }

  /** No generality is lost: a module has finitely many names, and any injective choice of new ones is part of a Naming. */
  lemma {:induction false} InjectiveExtends(p: map<string, string>) returns (f: Naming)
    requires OneToOne(p)
    ensures Invertible(f) && forall a :: a in p ==> To(f, a) == p[a]
    decreases |p|
  {
    if p == map[] {
      f := map[];
      assert Undoes(map[], f);
    } else {
      var a :| a in p;
      var rest := p - {a};
      FewerKeys(rest, p);
      forall c, d ensures Apart(rest, c, d) { assert Apart(p, c, d); }
      var g := InjectiveExtends(rest);
      var undo :| Undoes(undo, g);
      var x, y := To(g, a), p[a];
      f := SwapAfter(g, undo, x, y);
      forall n ensures To(SwapBefore(undo, x, y), To(f, n)) == n { Swapped(g, undo, x, y, n); }
      assert Undoes(SwapBefore(undo, x, y), f);
      forall b | b in p ensures To(f, b) == p[b] {
        Swapped(g, undo, x, y, b);
        assert Apart(p, a, b);
        OtherKept(g, undo, p, a, b);
      }
    }
  }

  lemma OtherKept(g: Naming, undo: Naming, p: map<string, string>, a: string, b: string)
    requires Apart(p, a, b) && Undoes(undo, g) && a in p && b in p && (b != a ==> To(g, b) == p[b])
    ensures Swap(To(g, a), p[a], To(g, b)) == p[b]
  {
    assert To(undo, To(g, a)) == a && To(undo, To(g, b)) == b;
  }

  lemma FewerKeys<K, V>(a: map<K, V>, b: map<K, V>)
    requires a.Keys < b.Keys
    ensures |a| < |b|
  {
    assert |a.Keys| == |a| && |b.Keys| == |b|;
    var gone := b.Keys - a.Keys;
    assert b.Keys == a.Keys + gone && gone != {};
  }

  /** Name classes stay apart, and intrinsics keep their names. */
  ghost predicate Legal(r: Renaming) {
    && Invertible(r.percent) && Invertible(r.at) && Invertible(r.bang) && Invertible(r.hash)
    && (forall name :: KeepsIntrinsic(r.at, name))
  }

  ghost predicate KeepsIntrinsic(f: Naming, name: string) {
    if IsIntrinsic(name) then To(f, name) == name else !IsIntrinsic(To(f, name))
  }

  function RenameToken(r: Renaming, t: Token): Token {
    match t
    case Text(text) => t
    case Percent(name) => Percent(To(r.percent, name))
    case At(name) => At(To(r.at, name))
    case Bang(name) => Bang(To(r.bang, name))
    case Hash(name) => Hash(To(r.hash, name))
  }

  function RenameTokens(r: Renaming, tokens: seq<Token>): (renamed: seq<Token>)
    ensures |renamed| == |tokens|
  {
    if tokens == [] then [] else [RenameToken(r, tokens[0])] + RenameTokens(r, tokens[1..])
  }

  function RenameField(r: Renaming, f: Field): Field {
    match f
    case Reference(node) => Reference(To(r.bang, node))
    case Quoted(text) => f
    case NullField => f
    case Inline(fields) => Inline(RenameFields(r, fields))
    case Plain(tokens) => Plain(RenameTokens(r, tokens))
  }

  function RenameFields(r: Renaming, fields: seq<Field>): (renamed: seq<Field>)
    ensures |renamed| == |fields|
    ensures forall i :: 0 <= i < |fields| ==> renamed[i] == RenameField(r, fields[i])
  {
    if fields == [] then [] else [RenameField(r, fields[0])] + RenameFields(r, fields[1..])
  }

  function RenameBody(r: Renaming, b: Body): Body {
    match b
    case List(fields) => List(RenameFields(r, fields))
    case Other(tokens) => Other(RenameTokens(r, tokens))
  }

  lemma {:induction false} RenameAppend(r: Renaming, a: seq<Token>, b: seq<Token>)
    ensures RenameTokens(r, a + b) == RenameTokens(r, a) + RenameTokens(r, b)
  {
    if a == [] {
      assert a + b == b;
    } else {
      RenameAppend(r, a[1..], b);
      assert (a + b)[0] == a[0] && (a + b)[1..] == a[1..] + b;
      Associative([RenameToken(r, a[0])], RenameTokens(r, a[1..]), RenameTokens(r, b));
    }
  }

  lemma RenameOne(r: Renaming, t: Token)
    ensures RenameTokens(r, [t]) == [RenameToken(r, t)]
  {
    assert [t][1..] == [];
  }

  lemma {:induction false} RenamedField(r: Renaming, f: Field)
    ensures FieldTokens(RenameField(r, f)) == RenameTokens(r, FieldTokens(f))
  {
    match f
    case Reference(node) => RenameOne(r, Bang(node));
    case Quoted(text) =>
      assert FieldTokens(f) == [Text("!")] + [Text(text)];
      RenameAppend(r, [Text("!")], [Text(text)]);
      RenameOne(r, Text("!"));
      RenameOne(r, Text(text));
    case NullField => RenameOne(r, Text("null"));
    case Inline(fields) =>
      RenamedFields(r, fields);
      RenamedBraces(r, FieldsTokens(fields));
    case Plain(tokens) =>
  }

  lemma RenamedBraces(r: Renaming, inner: seq<Token>)
    ensures RenameTokens(r, [Text("!{")] + inner + [Text("}")]) == [Text("!{")] + RenameTokens(r, inner) + [Text("}")]
  {
    RenameAppend(r, [Text("!{")] + inner, [Text("}")]);
    RenameAppend(r, [Text("!{")], inner);
    RenameOne(r, Text("!{"));
    RenameOne(r, Text("}"));
  }

  lemma {:induction false} RenamedFields(r: Renaming, fields: seq<Field>)
    ensures FieldsTokens(RenameFields(r, fields)) == RenameTokens(r, FieldsTokens(fields))
  {
    if fields != [] {
      RenamedField(r, fields[0]);
      if |fields| > 1 {
        RenamedFields(r, fields[1..]);
        assert RenameFields(r, fields)[1..] == RenameFields(r, fields[1..]);
        var head, rest := FieldTokens(fields[0]), FieldsTokens(fields[1..]);
        RenameAppend(r, head + [Text(", ")], rest);
        RenameAppend(r, head, [Text(", ")]);
        RenameOne(r, Text(", "));
      }
    }
  }

  lemma RenamedBody(r: Renaming, b: Body)
    ensures BodyTokens(RenameBody(r, b)) == RenameTokens(r, BodyTokens(b))
  {
    if b.List? {
      RenamedFields(r, b.fields);
      RenamedBraces(r, FieldsTokens(b.fields));
    }
  }

  // ---------------------------------------------------------------- renamed modules and states

  /** `b` holds at the new name what `a` holds at `name`. */
  ghost predicate SameEntry<V>(f: Naming, a: map<string, V>, b: map<string, V>, name: string) {
    if name in a then To(f, name) in b && b[To(f, name)] == a[name] else To(f, name) !in b
  }

  ghost predicate SameTable<V>(f: Naming, a: map<string, V>, b: map<string, V>) {
    forall name :: SameEntry(f, a, b, name)
  }

  ghost predicate SameMember(f: Naming, a: set<string>, b: set<string>, name: string) {
    name in a <==> To(f, name) in b
  }

  ghost predicate SameNames(f: Naming, a: set<string>, b: set<string>) {
    forall name :: SameMember(f, a, b, name)
  }

  ghost predicate SameLayouts(f: Naming, types: set<string>, a: map<string, seq<Out>>, b: map<string, seq<Out>>) {
    forall name :: name in types ==> SameEntry(f, a, b, name)
  }

  ghost predicate SameOpenTypes(f: Naming, types: set<string>, a: set<string>, b: set<string>) {
    forall name :: name in types ==> SameMember(f, a, b, name)
  }

  ghost predicate SameWorklist(f: Naming, a: seq<string>, b: seq<string>) {
    |a| == |b| && forall i :: 0 <= i < |a| ==> b[i] == To(f, a[i])
  }

  ghost predicate RenamedType(r: Renaming, m1: Module, m2: Module, name: string) {
    if name in m1.types
    then To(r.percent, name) in m2.types && m2.types[To(r.percent, name)] == RenameTokens(r, m1.types[name])
    else To(r.percent, name) !in m2.types
  }

  ghost predicate RenamedNode(r: Renaming, m1: Module, m2: Module, name: string) {
    if name in m1.nodes
    then To(r.bang, name) in m2.nodes && m2.nodes[To(r.bang, name)] == RenameBody(r, m1.nodes[name])
    else To(r.bang, name) !in m2.nodes
  }

  /** `m2` is `m1` under `r`, as far as types, attribute groups and metadata nodes go. */
  ghost predicate RenamedTables(r: Renaming, m1: Module, m2: Module) {
    && (forall name :: RenamedType(r, m1, m2, name))
    && SameTable(r.hash, m1.attributes, m2.attributes)
    && (forall name :: RenamedNode(r, m1, m2, name))
  }

  /** The parts of the state that outlive a function. */
  ghost predicate SharedMatch(r: Renaming, m: Module, s: State, t: State) {
    && SameLayouts(r.percent, m.types.Keys, s.layouts, t.layouts)
    && SameOpenTypes(r.percent, m.types.Keys, s.active, t.active)
    && SameTable(r.at, s.globals, t.globals) && s.globalCount == t.globalCount
    && SameTable(r.bang, s.nodeIds, t.nodeIds)
    && SameNames(r.at, s.used, t.used)
    && SameWorklist(r.bang, s.metadata, t.metadata)
    && s.valid == t.valid
  }

  ghost predicate LocalsMatch(r: Renaming, s: State, t: State) {
    SameTable(r.percent, s.locals, t.locals) && |s.locals| == |t.locals|
  }

  ghost predicate Matches(r: Renaming, m: Module, s: State, t: State) {
    SharedMatch(r, m, s, t) && LocalsMatch(r, s, t)
  }

  /** Two results of corresponding steps. */
  ghost predicate Agree(r: Renaming, m: Module, w: Written, v: Written) {
    w.out == v.out && Matches(r, m, w.state, v.state)
  }

  // ---------------------------------------------------------------- one step

  lemma NumberRenamed(f: Naming, a: map<string, nat>, b: map<string, nat>, name: string, number: nat)
    requires Invertible(f) && SameTable(f, a, b)
    ensures SameTable(f, a[name := number], b[To(f, name) := number])
  {
    var back :| Undoes(back, f);
    var a', b' := a[name := number], b[To(f, name) := number];
    forall n ensures SameEntry(f, a', b', n) {
      assert SameEntry(f, a, b, n);
      assert To(back, To(f, n)) == n && To(back, To(f, name)) == name;
    }
  }

  lemma NameRenamed(f: Naming, a: set<string>, b: set<string>, name: string)
    requires Invertible(f) && SameNames(f, a, b)
    ensures SameNames(f, a + {name}, b + {To(f, name)})
  {
    var back :| Undoes(back, f);
    forall n ensures SameMember(f, a + {name}, b + {To(f, name)}, n) {
      assert SameMember(f, a, b, n);
      assert To(back, To(f, n)) == n && To(back, To(f, name)) == name;
    }
  }

  lemma WorklistRenamed(f: Naming, a: seq<string>, b: seq<string>, name: string)
    requires SameWorklist(f, a, b)
    ensures SameWorklist(f, a + [name], b + [To(f, name)])
  {
  }

  lemma NodeTables(f: Naming, m1: Module, m2: Module, s: State, t: State, name: string)
    requires Invertible(f) && SameTable(f, s.nodeIds, t.nodeIds) && SameWorklist(f, s.metadata, t.metadata)
    ensures
      var w, v := RewriteToken(m1, s, Bang(name)), RewriteToken(m2, t, Bang(To(f, name)));
      && w.out == v.out
      && SameTable(f, w.state.nodeIds, v.state.nodeIds) && SameWorklist(f, w.state.metadata, v.state.metadata)
  {
    assert SameEntry(f, s.nodeIds, t.nodeIds, name);
    if name !in s.nodeIds {
      NumberRenamed(f, s.nodeIds, t.nodeIds, name, |s.metadata|);
      WorklistRenamed(f, s.metadata, t.metadata, name);
    }
  }

  lemma NodeFrame(m: Module, s: State, name: string)
    ensures var u := RewriteToken(m, s, Bang(name)).state; u == s.(nodeIds := u.nodeIds, metadata := u.metadata)
  {
  }

  lemma NodesReplaced(r: Renaming, m: Module, s: State, t: State, u: State, v: State)
    requires Matches(r, m, s, t)
    requires u == s.(nodeIds := u.nodeIds, metadata := u.metadata) && v == t.(nodeIds := v.nodeIds, metadata := v.metadata)
    requires SameTable(r.bang, u.nodeIds, v.nodeIds) && SameWorklist(r.bang, u.metadata, v.metadata)
    ensures Matches(r, m, u, v)
  {
  }

  lemma NodeRenamed(r: Renaming, m1: Module, m2: Module, s: State, t: State, name: string)
    requires Legal(r) && Matches(r, m1, s, t)
    ensures Agree(r, m1, RewriteToken(m1, s, Bang(name)), RewriteToken(m2, t, Bang(To(r.bang, name))))
  {
    NodeTables(r.bang, m1, m2, s, t, name);
    NodeFrame(m1, s, name);
    NodeFrame(m2, t, To(r.bang, name));
    NodesReplaced(r, m1, s, t, RewriteToken(m1, s, Bang(name)).state, RewriteToken(m2, t, Bang(To(r.bang, name))).state);
  }

  lemma GlobalTables(f: Naming, m1: Module, m2: Module, s: State, t: State, name: string)
    requires Invertible(f) && SameTable(f, s.globals, t.globals) && SameNames(f, s.used, t.used)
    requires s.globalCount == t.globalCount && KeepsIntrinsic(f, name)
    ensures
      var w, v := RewriteToken(m1, s, At(name)), RewriteToken(m2, t, At(To(f, name)));
      && w.out == v.out && w.state.globalCount == v.state.globalCount
      && SameTable(f, w.state.globals, v.state.globals) && SameNames(f, w.state.used, v.state.used)
  {
    assert SameEntry(f, s.globals, t.globals, name);
    NameRenamed(f, s.used, t.used, name);
    if !IsIntrinsic(name) && name !in s.globals {
      NumberRenamed(f, s.globals, t.globals, name, s.globalCount);
    }
  }

  lemma GlobalFrame(m: Module, s: State, name: string)
    ensures
      var u := RewriteToken(m, s, At(name)).state;
      u == s.(globals := u.globals, globalCount := u.globalCount, used := u.used)
  {
  }

  lemma GlobalsReplaced(r: Renaming, m: Module, s: State, t: State, u: State, v: State)
    requires Matches(r, m, s, t)
    requires u == s.(globals := u.globals, globalCount := u.globalCount, used := u.used)
    requires v == t.(globals := v.globals, globalCount := v.globalCount, used := v.used)
    requires SameTable(r.at, u.globals, v.globals) && SameNames(r.at, u.used, v.used) && u.globalCount == v.globalCount
    ensures Matches(r, m, u, v)
  {
  }

  lemma GlobalRenamed(r: Renaming, m1: Module, m2: Module, s: State, t: State, name: string)
    requires Legal(r) && Matches(r, m1, s, t)
    ensures Agree(r, m1, RewriteToken(m1, s, At(name)), RewriteToken(m2, t, At(To(r.at, name))))
  {
    assert KeepsIntrinsic(r.at, name);
    GlobalTables(r.at, m1, m2, s, t, name);
    GlobalFrame(m1, s, name);
    GlobalFrame(m2, t, To(r.at, name));
    GlobalsReplaced(r, m1, s, t, RewriteToken(m1, s, At(name)).state, RewriteToken(m2, t, At(To(r.at, name))).state);
  }

  lemma LocalTables(f: Naming, m1: Module, m2: Module, s: State, t: State, name: string)
    requires Invertible(f) && SameTable(f, s.locals, t.locals) && |s.locals| == |t.locals|
    requires name !in m1.types && To(f, name) !in m2.types
    ensures
      var w, v := RewriteToken(m1, s, Percent(name)), RewriteToken(m2, t, Percent(To(f, name)));
      && w.out == v.out && SameTable(f, w.state.locals, v.state.locals)
      && |w.state.locals| == |v.state.locals|
      && w.state == s.(locals := w.state.locals) && v.state == t.(locals := v.state.locals)
  {
    LocalStep(m1, s, name);
    LocalStep(m2, t, To(f, name));
    assert SameEntry(f, s.locals, t.locals, name);
    if name !in s.locals { NumberRenamed(f, s.locals, t.locals, name, |s.locals|); }
  }

  lemma LocalStep(m: Module, s: State, name: string)
    requires name !in m.types
    ensures RewriteToken(m, s, Percent(name))
         == if name in s.locals then Written(s, [OLocal(s.locals[name])])
            else Written(s.(locals := s.locals[name := |s.locals|]), [OLocal(|s.locals|)])
  {
  }

  lemma LocalsReplaced(r: Renaming, m: Module, s: State, t: State, u: State, v: State)
    requires Matches(r, m, s, t)
    requires u == s.(locals := u.locals) && v == t.(locals := v.locals)
    requires SameTable(r.percent, u.locals, v.locals) && |u.locals| == |v.locals|
    ensures Matches(r, m, u, v)
  {
  }

  lemma LocalRenamed(r: Renaming, m1: Module, m2: Module, s: State, t: State, name: string)
    requires Legal(r) && Matches(r, m1, s, t) && name !in m1.types && To(r.percent, name) !in m2.types
    ensures Agree(r, m1, RewriteToken(m1, s, Percent(name)), RewriteToken(m2, t, Percent(To(r.percent, name))))
  {
    LocalTables(r.percent, m1, m2, s, t, name);
    LocalsReplaced(r, m1, s, t, RewriteToken(m1, s, Percent(name)).state,
                   RewriteToken(m2, t, Percent(To(r.percent, name))).state);
  }

  lemma Invalidated(r: Renaming, m: Module, s: State, t: State)
    requires Matches(r, m, s, t)
    ensures Matches(r, m, s.(valid := false), t.(valid := false))
  {
  }

  lemma TokenRenamed(r: Renaming, m1: Module, m2: Module, s: State, t: State, token: Token)
    requires Legal(r) && RenamedTables(r, m1, m2) && Matches(r, m1, s, t)
    requires !(token.Percent? && token.name in m1.types)
    ensures Agree(r, m1, RewriteToken(m1, s, token), RewriteToken(m2, t, RenameToken(r, token)))
  {
    match token
    case At(name) => GlobalRenamed(r, m1, m2, s, t, name);
    case Bang(name) => NodeRenamed(r, m1, m2, s, t, name);
    case Percent(name) =>
      assert RenamedType(r, m1, m2, name);
      LocalRenamed(r, m1, m2, s, t, name);
    case Hash(name) =>
      assert SameEntry(r.hash, m1.attributes, m2.attributes, name);
      Invalidated(r, m1, s, t);
    case Text(text) =>
  }

  lemma JoinWritten(r: Renaming, m1: Module, m2: Module, s: State, t: State, tokens: seq<Token>)
    requires tokens != []
    requires
      var a, b := RewriteToken(m1, s, tokens[0]), RewriteToken(m2, t, RenameToken(r, tokens[0]));
      a.out == b.out && Agree(r, m1, Rewrite(m1, a.state, tokens[1..]), Rewrite(m2, b.state, RenameTokens(r, tokens[1..])))
    ensures Agree(r, m1, Rewrite(m1, s, tokens), Rewrite(m2, t, RenameTokens(r, tokens)))
  {
    var renamed := RenameTokens(r, tokens);
    assert renamed[0] == RenameToken(r, tokens[0]) && renamed[1..] == RenameTokens(r, tokens[1..]);
  }

  /** The simulation: related states and renamed tokens give related states and the same output. */
  lemma {:induction false} RewriteRenamed(r: Renaming, m1: Module, m2: Module, s: State, t: State, tokens: seq<Token>)
    requires Legal(r) && RenamedTables(r, m1, m2) && Matches(r, m1, s, t)
    ensures Agree(r, m1, Rewrite(m1, s, tokens), Rewrite(m2, t, RenameTokens(r, tokens)))
    decreases |m1.types.Keys - s.active|, |tokens|, 0
  {
    if tokens != [] {
      var first := tokens[0];
      if first.Percent? && first.name in m1.types {
        assert RenamedType(r, m1, m2, first.name);
        LayoutRenamed(r, m1, m2, s, t, first.name);
      } else {
        TokenRenamed(r, m1, m2, s, t, first);
      }
      var a, b := RewriteToken(m1, s, first), RewriteToken(m2, t, RenameToken(r, first));
      RewriteRenamed(r, m1, m2, a.state, b.state, tokens[1..]);
      JoinWritten(r, m1, m2, s, t, tokens);
    }
  }

  lemma OpenTypes(f: Naming, types: set<string>, a: set<string>, b: set<string>, name: string)
    requires Invertible(f) && SameOpenTypes(f, types, a, b)
    ensures SameOpenTypes(f, types, a + {name}, b + {To(f, name)})
    ensures SameOpenTypes(f, types, a - {name}, b - {To(f, name)})
  {
    var back :| Undoes(back, f);
    forall n | n in types
      ensures SameMember(f, a + {name}, b + {To(f, name)}, n) && SameMember(f, a - {name}, b - {To(f, name)}, n)
    {
      assert SameMember(f, a, b, n);
      assert To(back, To(f, n)) == n && To(back, To(f, name)) == name;
    }
  }

  lemma LayoutStored(f: Naming, types: set<string>, a: map<string, seq<Out>>, b: map<string, seq<Out>>,
                     name: string, out: seq<Out>)
    requires Invertible(f) && SameLayouts(f, types, a, b) && name in types
    ensures SameLayouts(f, types, Emplace(a, name, out), Emplace(b, To(f, name), out))
  {
    var back :| Undoes(back, f);
    assert SameEntry(f, a, b, name);
    forall n | n in types ensures SameEntry(f, Emplace(a, name, out), Emplace(b, To(f, name), out), n) {
      assert SameEntry(f, a, b, n);
      assert To(back, To(f, n)) == n && To(back, To(f, name)) == name;
    }
  }

  /** Only the type tables differ from a pair of matching states. */
  lemma TypesReplaced(r: Renaming, m: Module, s: State, t: State, u: State, v: State)
    requires Matches(r, m, s, t)
    requires u == s.(active := u.active, layouts := u.layouts) && v == t.(active := v.active, layouts := v.layouts)
    requires SameLayouts(r.percent, m.types.Keys, u.layouts, v.layouts)
    requires SameOpenTypes(r.percent, m.types.Keys, u.active, v.active)
    ensures Matches(r, m, u, v)
  {
  }

  function Opened(s: State, name: string): State {
    s.(active := s.active + {name})
  }

  function Closed(s: State, name: string, out: seq<Out>): State {
    s.(active := s.active - {name}, layouts := Emplace(s.layouts, name, out))
  }

  lemma TypeOpened(r: Renaming, m: Module, s: State, t: State, name: string)
    requires Legal(r) && Matches(r, m, s, t)
    ensures Matches(r, m, Opened(s, name), Opened(t, To(r.percent, name)))
  {
    OpenTypes(r.percent, m.types.Keys, s.active, t.active, name);
    TypesReplaced(r, m, s, t, Opened(s, name), Opened(t, To(r.percent, name)));
  }

  lemma TypeClosed(r: Renaming, m: Module, s: State, t: State, name: string, out: seq<Out>)
    requires Legal(r) && Matches(r, m, s, t) && name in m.types
    ensures Matches(r, m, Closed(s, name, out), Closed(t, To(r.percent, name), out))
  {
    OpenTypes(r.percent, m.types.Keys, s.active, t.active, name);
    LayoutStored(r.percent, m.types.Keys, s.layouts, t.layouts, name, out);
    TypesReplaced(r, m, s, t, Closed(s, name, out), Closed(t, To(r.percent, name), out));
  }

  lemma {:induction false} LayoutRenamed(r: Renaming, m1: Module, m2: Module, s: State, t: State, name: string)
    requires Legal(r) && RenamedTables(r, m1, m2) && Matches(r, m1, s, t)
    requires name in m1.types && RenamedType(r, m1, m2, name)
    ensures Agree(r, m1, TypeLayout(m1, s, name), TypeLayout(m2, t, To(r.percent, name)))
    decreases |m1.types.Keys - s.active|, 0, 0
  {
    var name2 := To(r.percent, name);
    assert SameEntry(r.percent, s.layouts, t.layouts, name) && SameMember(r.percent, s.active, t.active, name);
    if name !in s.layouts && name !in s.active {
      OneMoreActive(m1.types.Keys, s.active, name);
      TypeOpened(r, m1, s, t, name);
      RewriteRenamed(r, m1, m2, Opened(s, name), Opened(t, name2), m1.types[name]);
      var w, v := Rewrite(m1, Opened(s, name), m1.types[name]), Rewrite(m2, Opened(t, name2), m2.types[name2]);
      TypeClosed(r, m1, w.state, v.state, name, w.out);
    } else {
      Invalidated(r, m1, s, t);
    }
  }

  // ---------------------------------------------------------------- reflected names

  lemma RenamedMetadataList(r: Renaming, m1: Module, m2: Module, f: Field)
    requires RenamedTables(r, m1, m2)
    ensures MetadataList(m1, f).None? ==> MetadataList(m2, RenameField(r, f)).None?
    ensures MetadataList(m1, f).Some? ==>
              MetadataList(m2, RenameField(r, f)) == Some(RenameFields(r, MetadataList(m1, f).value))
  {
    if f.Reference? { assert RenamedNode(r, m1, m2, f.node); }
  }

  lemma EntryRenamed<V>(f: Naming, a: map<string, V>, b: map<string, V>, name: string, value: V)
    requires Invertible(f) && SameTable(f, a, b)
    ensures SameTable(f, Emplace(a, name, value), Emplace(b, To(f, name), value))
  {
    var back :| Undoes(back, f);
    assert SameEntry(f, a, b, name);
    var a', b' := Emplace(a, name, value), Emplace(b, To(f, name), value);
    forall n ensures SameEntry(f, a', b', n) {
      assert SameEntry(f, a, b, n);
      assert To(back, To(f, n)) == n && To(back, To(f, name)) == name;
    }
  }

  lemma {:induction false} RenamedMarkAll(r: Renaming, a: map<string, nat>, b: map<string, nat>, fields: seq<Field>, position: nat)
    requires Legal(r) && SameTable(r.bang, a, b)
    ensures SameTable(r.bang, MarkAll(a, fields, position), MarkAll(b, RenameFields(r, fields), position))
    decreases |fields|
  {
    if fields != [] {
      var f := fields[0];
      if f.Reference? { EntryRenamed(r.bang, a, b, f.node, position); }
      assert RenameFields(r, fields)[1..] == RenameFields(r, fields[1..]);
      RenamedMarkAll(r, if f.Reference? then Emplace(a, f.node, position) else a,
                     if f.Reference? then Emplace(b, To(r.bang, f.node), position) else b, fields[1..], position);
    }
  }

  /** Both runs fail, or both succeed with matching reflection tables. */
  ghost predicate SameMarks(r: Renaming, a: Option<map<string, nat>>, b: Option<map<string, nat>>) {
    if a.Some? then b.Some? && SameTable(r.bang, a.value, b.value) else b.None?
  }

  lemma {:induction false} RenamedMarkGroups(r: Renaming, m1: Module, m2: Module, a: map<string, nat>,
                                             b: map<string, nat>, groups: seq<Field>)
    requires Legal(r) && RenamedTables(r, m1, m2) && SameTable(r.bang, a, b)
    ensures SameMarks(r, MarkGroups(m1, a, groups), MarkGroups(m2, b, RenameFields(r, groups)))
    decreases |groups|
  {
    if groups != [] {
      var g := groups[0];
      assert RenameFields(r, groups)[1..] == RenameFields(r, groups[1..]);
      RenamedMetadataList(r, m1, m2, g);
      if g.NullField? {
        RenamedMarkGroups(r, m1, m2, a, b, groups[1..]);
      } else if MetadataList(m1, g).Some? {
        var resources := MetadataList(m1, g).value;
        RenamedMarkAll(r, a, b, resources, 2);
        RenamedMarkGroups(r, m1, m2, MarkAll(a, resources, 2), MarkAll(b, RenameFields(r, resources), 2), groups[1..]);
      }
    }
  }

  lemma {:induction false} RenamedMarkTuples(r: Renaming, m1: Module, m2: Module, a: map<string, nat>,
                                             b: map<string, nat>, tuples: seq<Field>, entryPoints: bool)
    requires Legal(r) && RenamedTables(r, m1, m2) && SameTable(r.bang, a, b)
    ensures SameMarks(r, MarkTuples(m1, a, tuples, entryPoints), MarkTuples(m2, b, RenameFields(r, tuples), entryPoints))
    decreases |tuples|
  {
    if tuples != [] {
      var renamed := RenameFields(r, tuples);
      assert renamed[1..] == RenameFields(r, tuples[1..]);
      RenamedMetadataList(r, m1, m2, tuples[0]);
      if MetadataList(m1, tuples[0]).Some? {
        var fields := MetadataList(m1, tuples[0]).value;
        if entryPoints {
          RenamedMarkAll(r, a, b, [tuples[0]], 1);
          assert RenameFields(r, [tuples[0]]) == [renamed[0]];
          RenamedMarkTuples(r, m1, m2, MarkAll(a, [tuples[0]], 1), MarkAll(b, [renamed[0]], 1), tuples[1..], true);
        } else {
          RenamedMarkGroups(r, m1, m2, a, b, fields);
          var x, y := MarkGroups(m1, a, fields), MarkGroups(m2, b, RenameFields(r, fields));
          if x.Some? { RenamedMarkTuples(r, m1, m2, x.value, y.value, tuples[1..], false); }
        }
      }
    }
  }

  function RenameRoots(r: Renaming, roots: seq<Root>): (renamed: seq<Root>)
    ensures |renamed| == |roots|
  {
    if roots == [] then []
    else [Root(roots[0].name, RenameBody(r, roots[0].body))] + RenameRoots(r, roots[1..])
  }

  lemma {:induction false} RenamedMarkRoots(r: Renaming, m1: Module, m2: Module, a: map<string, nat>,
                                            b: map<string, nat>, roots: seq<Root>)
    requires Legal(r) && RenamedTables(r, m1, m2) && SameTable(r.bang, a, b)
    ensures SameMarks(r, MarkRoots(m1, a, roots), MarkRoots(m2, b, RenameRoots(r, roots)))
    decreases |roots|
  {
    if roots != [] {
      var root, renamed := roots[0], RenameRoots(r, roots);
      assert renamed[1..] == RenameRoots(r, roots[1..]) && renamed[0] == Root(root.name, RenameBody(r, root.body));
      if root.name != "dx.resources" && root.name != "dx.entryPoints" {
        RenamedMarkRoots(r, m1, m2, a, b, roots[1..]);
      } else if root.body.List? {
        var entries := root.name == "dx.entryPoints";
        RenamedMarkTuples(r, m1, m2, a, b, root.body.fields, entries);
        var x := MarkTuples(m1, a, root.body.fields, entries);
        var y := MarkTuples(m2, b, renamed[0].body.fields, entries);
        if x.Some? { RenamedMarkRoots(r, m1, m2, x.value, y.value, roots[1..]); }
      }
    }
  }

  // ---------------------------------------------------------------- the worklist

  lemma RenamedBlank(r: Renaming, fields: seq<Field>, k: nat)
    requires k < |fields|
    ensures RenameFields(r, fields[k := Quoted("\"\"")]) == RenameFields(r, fields)[k := Quoted("\"\"")]
  {
  }

  lemma RenamedBodyText(r: Renaming, m1: Module, m2: Module, a: map<string, nat>, b: map<string, nat>, name: string)
    requires RenamedTables(r, m1, m2) && SameTable(r.bang, a, b)
    requires name in m1.nodes && To(r.bang, name) in m2.nodes
    ensures BodyText(m1, a, name).None? ==> BodyText(m2, b, To(r.bang, name)).None?
    ensures BodyText(m1, a, name).Some? ==>
              BodyText(m2, b, To(r.bang, name)) == Some(RenameTokens(r, BodyText(m1, a, name).value))
  {
    assert RenamedNode(r, m1, m2, name) && SameEntry(r.bang, a, b, name);
    var body := m1.nodes[name];
    RenamedBody(r, body);
    if name in a && body.List? && a[name] < |body.fields| {
      RenamedBlank(r, body.fields, a[name]);
      RenamedBody(r, List(body.fields[a[name] := Quoted("\"\"")]));
    }
  }

  lemma RenamedWork(r: Renaming, m1: Module, m2: Module, a: map<string, nat>, b: map<string, nat>,
                    s: State, t: State, index: nat)
    requires RenamedTables(r, m1, m2) && SameTable(r.bang, a, b) && SameWorklist(r.bang, s.metadata, t.metadata)
    requires index < |s.metadata|
    ensures Work(m1, a, s, index).None? ==> Work(m2, b, t, index).None?
    ensures Work(m1, a, s, index).Some? ==>
              Work(m2, b, t, index) == Some(RenameTokens(r, Work(m1, a, s, index).value))
  {
    var name := s.metadata[index];
    assert t.metadata[index] == To(r.bang, name);
    assert RenamedNode(r, m1, m2, name);
    if name in m1.nodes { RenamedBodyText(r, m1, m2, a, b, name); }
  }

  ghost predicate SameFinish(f: Finished, g: Finished) {
    f.lines == g.lines && f.ok == g.ok
  }

  lemma {:induction false} RenamedFinish(r: Renaming, m1: Module, m2: Module, a: map<string, nat>, b: map<string, nat>,
                                         s: State, t: State, index: nat)
    requires Legal(r) && RenamedTables(r, m1, m2) && SameTable(r.bang, a, b) && Matches(r, m1, s, t)
    requires Ready(m1, s, index) && Ready(m2, t, index)
    ensures SameFinish(Finish(m1, a, s, index), Finish(m2, b, t, index))
    decreases |m1.nodes.Keys| - index
  {
    if index < |s.metadata| {
      RenamedWork(r, m1, m2, a, b, s, t, index);
      if Work(m1, a, s, index).None? {
        FinishStops(m1, a, s, index);
        FinishStops(m2, b, t, index);
      } else {
        var tokens := Work(m1, a, s, index).value;
        FinishStep(m1, a, s, index);
        FinishStep(m2, b, t, index);
        RewriteRenamed(r, m1, m2, s, t, tokens);
        RenamedFinish(r, m1, m2, a, b, Rewrite(m1, s, tokens).state, Rewrite(m2, t, RenameTokens(r, tokens)).state,
                      index + 1);
      }
    }
  }

  // ---------------------------------------------------------------- whole modules

  function RenameTexts(r: Renaming, texts: seq<seq<Token>>): (renamed: seq<seq<Token>>)
    ensures |renamed| == |texts|
  {
    if texts == [] then [] else [RenameTokens(r, texts[0])] + RenameTexts(r, texts[1..])
  }

  /** The k-th `define` line starts the function that `rs[k]` renames. */
  function RenameCode(rs: seq<Renaming>, k: nat, code: seq<Line>): (renamed: seq<Line>)
    requires k + Defines(code) < |rs|
    ensures |renamed| == |code|
    decreases |code|
  {
    if code == [] then []
    else
      var k' := if code[0].Begins() then k + 1 else k;
      [Line(RenameTokens(rs[k'], code[0].tokens))] + RenameCode(rs, k', code[1..])
  }

  function RenameDeclarations(r: Renaming, all: seq<Declaration>): (renamed: seq<Declaration>)
    ensures |renamed| == |all|
  {
    if all == [] then []
    else [Declaration(To(r.at, all[0].declared), RenameTokens(r, all[0].tokens))] + RenameDeclarations(r, all[1..])
  }

  /** Functions may rename their locals differently; every other name has one new name. */
  ghost predicate SameOutside(m: Module, r: Renaming, q: Renaming) {
    && r.at == q.at && r.bang == q.bang && r.hash == q.hash
    && forall name :: name in m.types ==> To(r.percent, name) == To(q.percent, name)
  }

  ghost predicate Member(rs: seq<Renaming>, k: nat, m1: Module, m2: Module)
    requires k < |rs|
  {
    Legal(rs[k]) && RenamedTables(rs[k], m1, m2) && SameOutside(m1, rs[0], rs[k])
  }

  /** The renamings of a module's functions, which agree outside. */
  ghost predicate Family(rs: seq<Renaming>, m1: Module, m2: Module) {
    forall k :: 0 <= k < |rs| ==> Member(rs, k, m1, m2)
  }

  /** `m2` is `m1` with its names changed consistently: by `rs[0]` outside functions, by `rs[k]` in the k-th. */
  ghost predicate RenamedModule(rs: seq<Renaming>, m1: Module, m2: Module) {
    && |rs| == 1 + Defines(m1.code)
    && Family(rs, m1, m2)
    && m2.roots == RenameRoots(rs[0], m1.roots)
    && m2.targets == RenameTexts(rs[0], m1.targets)
    && m2.code == RenameCode(rs, 0, m1.code)
    && m2.declarations == RenameDeclarations(rs[|rs| - 1], m1.declarations)
  }

  lemma {:induction false} RenameTextsAppend(r: Renaming, a: seq<seq<Token>>, b: seq<seq<Token>>)
    ensures RenameTexts(r, a + b) == RenameTexts(r, a) + RenameTexts(r, b)
  {
    if a == [] {
      assert a + b == b;
    } else {
      RenameTextsAppend(r, a[1..], b);
      assert (a + b)[0] == a[0] && (a + b)[1..] == a[1..] + b;
    }
  }

  lemma {:induction false} RenamedRootTexts(r: Renaming, roots: seq<Root>)
    ensures RootTexts(RenameRoots(r, roots)) == RenameTexts(r, RootTexts(roots))
  {
    if roots != [] {
      var root, renamed := roots[0], RenameRoots(r, roots);
      RenamedRootTexts(r, roots[1..]);
      assert renamed[1..] == RenameRoots(r, roots[1..]);
      var head := [Text("!" + root.name + "=")];
      RenamedBody(r, root.body);
      RenameAppend(r, head, BodyTokens(root.body));
      RenameOne(r, head[0]);
      var text := head + BodyTokens(root.body);
      assert RenameTexts(r, [text]) == [RenameTokens(r, text)];
      RenameTextsAppend(r, if ExecutionRoot(root.name) then [text] else [], RootTexts(roots[1..]));
    }
  }

  lemma {:induction false} RenamedAll(r: Renaming, m1: Module, m2: Module, s: State, t: State, texts: seq<seq<Token>>)
    requires Legal(r) && RenamedTables(r, m1, m2) && Matches(r, m1, s, t)
    ensures
      var w, v := RewriteAll(m1, s, texts), RewriteAll(m2, t, RenameTexts(r, texts));
      w.lines == v.lines && Matches(r, m1, w.state, v.state)
    decreases |texts|
  {
    if texts != [] {
      var renamed := RenameTexts(r, texts);
      assert renamed[0] == RenameTokens(r, texts[0]) && renamed[1..] == RenameTexts(r, texts[1..]);
      RewriteRenamed(r, m1, m2, s, t, texts[0]);
      RenamedAll(r, m1, m2, Rewrite(m1, s, texts[0]).state, Rewrite(m2, t, renamed[0]).state, texts[1..]);
    }
  }

  /** A new function starts with no locals, so the states match under its own renaming. */
  lemma NewFunction(r: Renaming, q: Renaming, m: Module, s: State, t: State)
    requires Matches(r, m, s, t) && SameOutside(m, r, q)
    ensures Matches(q, m, s.(locals := map[]), t.(locals := map[]))
  {
    TablesCarry(r, q, m, s, t);
    forall name ensures SameEntry<nat>(q.percent, map[], map[], name) {
    }
  }

  lemma TablesCarry(r: Renaming, q: Renaming, m: Module, s: State, t: State)
    requires SharedMatch(r, m, s, t) && SameOutside(m, r, q)
    ensures SharedMatch(q, m, s, t)
  {
    forall name | name in m.types
      ensures SameEntry(q.percent, s.layouts, t.layouts, name) && SameMember(q.percent, s.active, t.active, name)
    {
      assert SameEntry(r.percent, s.layouts, t.layouts, name) && SameMember(r.percent, s.active, t.active, name);
    }
  }

  lemma {:induction false} RenamedCode(rs: seq<Renaming>, k: nat, m1: Module, m2: Module, s: State, t: State,
                                       code: seq<Line>)
    requires Family(rs, m1, m2) && k + Defines(code) < |rs| && Matches(rs[k], m1, s, t)
    ensures
      var w, v := RewriteCode(m1, s, code), RewriteCode(m2, t, RenameCode(rs, k, code));
      w.lines == v.lines && Matches(rs[k + Defines(code)], m1, w.state, v.state)
    decreases |code|
  {
    if code != [] {
      var line, renamed := code[0], RenameCode(rs, k, code);
      var k' := if line.Begins() then k + 1 else k;
      assert renamed[0] == Line(RenameTokens(rs[k'], line.tokens));
      assert renamed[1..] == RenameCode(rs, k', code[1..]);
      FamilyOutside(rs, k, k', m1, m2);
      RenamedLine(rs[k], rs[k'], m1, m2, s, t, line);
      var w, v := Rewrite(m1, AtLine(s, line), line.tokens), Rewrite(m2, AtLine(t, renamed[0]), renamed[0].tokens);
      RenamedCode(rs, k', m1, m2, w.state, v.state, code[1..]);
    }
  }

  lemma FamilyOutside(rs: seq<Renaming>, k: nat, j: nat, m1: Module, m2: Module)
    requires Family(rs, m1, m2) && k < |rs| && j < |rs|
    ensures SameOutside(m1, rs[k], rs[j]) && Legal(rs[j]) && RenamedTables(rs[j], m1, m2)
  {
    assert Member(rs, k, m1, m2) && Member(rs, j, m1, m2);
  }

  /** Renaming keeps text, and so where functions begin. */
  lemma RenamedBegins(q: Renaming, tokens: seq<Token>)
    ensures Line(RenameTokens(q, tokens)).Begins() == Line(tokens).Begins()
  {
  }

  /** One line, which may begin the function that `q` renames. */
  lemma RenamedLine(r: Renaming, q: Renaming, m1: Module, m2: Module, s: State, t: State, line: Line)
    requires Legal(q) && RenamedTables(q, m1, m2) && SameOutside(m1, r, q) && Matches(r, m1, s, t)
    requires !line.Begins() ==> q == r
    ensures
      var w := Rewrite(m1, AtLine(s, line), line.tokens);
      var v := Rewrite(m2, AtLine(t, Line(RenameTokens(q, line.tokens))), RenameTokens(q, line.tokens));
      Agree(q, m1, w, v)
  {
    RenamedBegins(q, line.tokens);
    if line.Begins() { NewFunction(r, q, m1, s, t); }
    RewriteRenamed(q, m1, m2, AtLine(s, line), AtLine(t, Line(RenameTokens(q, line.tokens))), line.tokens);
  }

  lemma {:induction false} RenamedDeclarations(r: Renaming, m1: Module, m2: Module, s: State, t: State,
                                               all: seq<Declaration>)
    requires Legal(r) && RenamedTables(r, m1, m2) && Matches(r, m1, s, t)
    ensures
      var w, v := RewriteDeclarations(m1, s, all), RewriteDeclarations(m2, t, RenameDeclarations(r, all));
      w.lines == v.lines && Matches(r, m1, w.state, v.state)
    decreases |all|
  {
    if all != [] {
      var renamed := RenameDeclarations(r, all);
      assert renamed[1..] == RenameDeclarations(r, all[1..]);
      assert SameMember(r.at, s.used, t.used, all[0].declared);
      if all[0].declared in s.used {
        RewriteRenamed(r, m1, m2, s, t, all[0].tokens);
        RenamedDeclarations(r, m1, m2, Rewrite(m1, s, all[0].tokens).state, Rewrite(m2, t, renamed[0].tokens).state,
                            all[1..]);
      } else {
        RenamedDeclarations(r, m1, m2, s, t, all[1..]);
      }
    }
  }

  lemma InitialMatches(r: Renaming, m: Module)
    ensures Matches(r, m, INITIAL, INITIAL)
  {
    forall name ensures SameEntry<nat>(r.percent, map[], map[], name) && SameEntry<seq<Out>>(r.percent, map[], map[], name) {
    }
    forall name ensures SameEntry<nat>(r.at, map[], map[], name) && SameEntry<nat>(r.bang, map[], map[], name) {
    }
    forall name ensures SameMember(r.percent, {}, {}, name) && SameMember(r.at, {}, {}, name) {
    }
  }

  lemma RenamedProperties(rs: seq<Renaming>, m1: Module, m2: Module, a: map<string, nat>, b: map<string, nat>)
    requires RenamedModule(rs, m1, m2) && SameTable(rs[0].bang, a, b)
    ensures Properties(m1, a) == Properties(m2, b)
  {
    var r := rs[0];
    assert Member(rs, 0, m1, m2);
    var texts := m1.targets + RootTexts(m1.roots);
    RenamedRootTexts(r, m1.roots);
    RenameTextsAppend(r, m1.targets, RootTexts(m1.roots));
    InitialMatches(r, m1);
    RenamedAll(r, m1, m2, INITIAL, INITIAL, texts);
    RewriteAllKeepsNodes(m1, INITIAL, texts);
    RewriteAllKeepsNodes(m2, INITIAL, RenameTexts(r, texts));
    RenamedFinish(r, m1, m2, a, b, RewriteAll(m1, INITIAL, texts).state,
                  RewriteAll(m2, INITIAL, RenameTexts(r, texts)).state, 0);
  }

  lemma RenamedInstructions(rs: seq<Renaming>, m1: Module, m2: Module, a: map<string, nat>, b: map<string, nat>)
    requires RenamedModule(rs, m1, m2) && SameTable(rs[0].bang, a, b)
    ensures Instructions(m1, a) == Instructions(m2, b)
  {
    var r := rs[|rs| - 1];
    assert Member(rs, |rs| - 1, m1, m2) && Member(rs, 0, m1, m2);
    InitialMatches(rs[0], m1);
    RenamedCode(rs, 0, m1, m2, INITIAL, INITIAL, m1.code);
    var s, t := RewriteCode(m1, INITIAL, m1.code).state, RewriteCode(m2, INITIAL, m2.code).state;
    RewriteCodeKeepsNodes(m1, INITIAL, m1.code);
    RewriteCodeKeepsNodes(m2, INITIAL, m2.code);
    RenamedDeclarations(r, m1, m2, s, t, m1.declarations);
    RewriteDeclarationsKeepsNodes(m1, s, m1.declarations);
    RewriteDeclarationsKeepsNodes(m2, t, m2.declarations);
    RenamedFinish(r, m1, m2, a, b, RewriteDeclarations(m1, s, m1.declarations).state,
                  RewriteDeclarations(m2, t, m2.declarations).state, 0);
  }

  /** Consistent renaming changes neither canonical text, and makes neither fail or succeed. */
  lemma CanonicalInvariant(rs: seq<Renaming>, m1: Module, m2: Module)
    requires RenamedModule(rs, m1, m2)
    ensures Canonical(m2) == Canonical(m1)
  {
    forall name ensures SameEntry<nat>(rs[0].bang, map[], map[], name) {
    }
    assert Member(rs, 0, m1, m2);
    RenamedMarkRoots(rs[0], m1, m2, map[], map[], m1.roots);
    var a, b := MarkRoots(m1, map[], m1.roots), MarkRoots(m2, map[], m2.roots);
    if a.Some? {
      RenamedProperties(rs, m1, m2, a.value, b.value);
      RenamedInstructions(rs, m1, m2, a.value, b.value);
    }
  }
}
