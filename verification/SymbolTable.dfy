/** The symbol table: what every index answers is what a scan of the symbols would. */
module SymbolTable {
  import opened Options

  datatype SymbolKind = ModuleSymbol | FunctionSymbol | MethodSymbol | LambdaSymbol | ClassSymbol | OtherSymbol

  datatype Symbol = Symbol(id: nat, name: string, qualified: string, kind: SymbolKind, node: Option<nat>, scope: Option<nat>)

  predicate IsCallable(k: SymbolKind) {
    k.FunctionSymbol? || k.MethodSymbol? || k.LambdaSymbol?
  }

  predicate IsDefinition(k: SymbolKind) {
    IsCallable(k) || k.ClassSymbol?
  }

  // ---- scans ----

  /** The last definition of `name` bound directly in `scope`: a scan from the end. */
  function LastIn(symbols: seq<Symbol>, scope: nat, name: string): (r: Option<nat>)
    ensures r.Some? ==> r.value < |symbols|
  {
    if symbols == [] then None
    else
      var s := symbols[|symbols| - 1];
      if s.scope == Some(scope) && s.name == name && IsDefinition(s.kind) then Some(|symbols| - 1)
      else LastIn(symbols[..|symbols| - 1], scope, name)
  }

  /** Every callable named `name`, in id order. */
  function AllNamed(symbols: seq<Symbol>, name: string): seq<nat> {
    if symbols == [] then []
    else
      var s := symbols[|symbols| - 1];
      AllNamed(symbols[..|symbols| - 1], name) + if s.name == name && IsCallable(s.kind) then [|symbols| - 1] else []
  }

  function LastQualified(symbols: seq<Symbol>, qualified: string): Option<nat> {
    if symbols == [] then None
    else if symbols[|symbols| - 1].qualified == qualified then Some(|symbols| - 1)
    else LastQualified(symbols[..|symbols| - 1], qualified)
  }

  function Found<K, V>(m: map<K, V>, k: K): Option<V> {
    if k in m then Some(m[k]) else None
  }

  function Listed(m: map<string, seq<nat>>, name: string): seq<nat> {
    if name in m then m[name] else []
  }

  // ---- indexes that agree with scans ----

  ghost predicate QualifiedAgrees(m: map<string, nat>, symbols: seq<Symbol>) {
    forall q :: Found(m, q) == LastQualified(symbols, q)
  }

  ghost predicate ScopesAgree(m: map<(nat, string), nat>, symbols: seq<Symbol>) {
    forall s: nat, x :: Found(m, (s, x)) == LastIn(symbols, s, x)
  }

  ghost predicate NamesAgree(m: map<string, seq<nat>>, symbols: seq<Symbol>) {
    forall x :: Listed(m, x) == AllNamed(symbols, x)
  }

  lemma QualifiedNext(m: map<string, nat>, symbols: seq<Symbol>, s: Symbol)
    requires QualifiedAgrees(m, symbols)
    ensures QualifiedAgrees(m[s.qualified := |symbols|], symbols + [s])
  {
    ScansNext(symbols, s);
    hide LastQualified;
  }

  lemma ScopesNext(m: map<(nat, string), nat>, symbols: seq<Symbol>, s: Symbol)
    requires ScopesAgree(m, symbols)
    ensures ScopesAgree(if s.scope.Some? && IsDefinition(s.kind) then m[(s.scope.value, s.name) := |symbols|] else m, symbols + [s])
  {
    ScansNext(symbols, s);
    hide LastIn;
  }

  lemma NamesNext(m: map<string, seq<nat>>, symbols: seq<Symbol>, s: Symbol)
    requires NamesAgree(m, symbols)
    ensures NamesAgree(if IsCallable(s.kind) then m[s.name := Listed(m, s.name) + [|symbols|]] else m, symbols + [s])
  {
    ScansNext(symbols, s);
    hide AllNamed;
  }

  // ---- the table ----

  class Table {
    var symbols: seq<Symbol>
    var byQualified: map<string, nat>
    var definitionsInScope: map<(nat, string), nat>
    var definitionsByName: map<string, seq<nat>>

    /** Ids are positions, and the indexes agree with scans. */
    ghost predicate Valid()
      reads this
    {
      && (forall i :: 0 <= i < |symbols| ==> symbols[i].id == i)
      && QualifiedAgrees(byQualified, symbols) && ScopesAgree(definitionsInScope, symbols) && NamesAgree(definitionsByName, symbols)
    }

    constructor ()
      ensures Valid() && symbols == []
    {
      symbols, byQualified, definitionsInScope, definitionsByName := [], map[], map[], map[];
    }

    function DefinitionsNamed(name: string): seq<nat>
      reads this
    {
      Listed(definitionsByName, name)
    }

    /** Appends a symbol under the next id, whatever id it carries. */
    method Push(symbol: Symbol) returns (id: nat)
      requires Valid()
      modifies this
      ensures Valid() && id == |old(symbols)| && symbols == old(symbols) + [symbol.(id := id)]
    {
      hide QualifiedAgrees, ScopesAgree, NamesAgree;
      id := |symbols|;
      var s := symbol.(id := id);
      QualifiedNext(byQualified, symbols, s);
      ScopesNext(definitionsInScope, symbols, s);
      NamesNext(definitionsByName, symbols, s);
      byQualified := byQualified[s.qualified := id];
      if s.scope.Some? && IsDefinition(s.kind) {
        definitionsInScope := definitionsInScope[(s.scope.value, s.name) := id];
      }
      if IsCallable(s.kind) {
        definitionsByName := definitionsByName[s.name := DefinitionsNamed(s.name) + [id]];
      }
      symbols := symbols + [s];
    }

    /** The definition a bare name refers to, from `scope` outwards. */
    method ResolveBareName(scope: nat, name: string) returns (r: Option<nat>)
      requires Valid() && ScopesFirst(symbols)
      ensures r == Resolved(symbols, scope, name)
    {
      var current := Some(scope);
      while current.Some?
        invariant current.Some? ==> Resolved(symbols, current.value, name) == Resolved(symbols, scope, name)
        invariant current.None? ==> Resolved(symbols, scope, name) == None
        decreases if current.Some? then current.value + 1 else 0
      {
        var here := current.value;
        assert Found(definitionsInScope, (here, name)) == LastIn(symbols, here, name);
        if (here, name) in definitionsInScope {
          return Some(definitionsInScope[(here, name)]);
        }
        if here >= |symbols| {
          return None;
        }
        current := symbols[here].scope;
      }
      r := None;
    }
  }

  lemma ScansNext(symbols: seq<Symbol>, s: Symbol)
    ensures var n, all := |symbols|, symbols + [s];
            && (forall q :: LastQualified(all, q) == if s.qualified == q then Some(n) else LastQualified(symbols, q))
            && (forall o: nat, x :: LastIn(all, o, x) == if s.scope == Some(o) && s.name == x && IsDefinition(s.kind) then Some(n) else LastIn(symbols, o, x))
            && (forall x :: AllNamed(all, x) == AllNamed(symbols, x) + if s.name == x && IsCallable(s.kind) then [n] else [])
  {
    assert (symbols + [s])[..|symbols|] == symbols;
  }

  /** Every symbol's scope was pushed before it. */
  ghost predicate ScopesFirst(symbols: seq<Symbol>) {
    forall i :: 0 <= i < |symbols| && symbols[i].scope.Some? ==> symbols[i].scope.value < i
  }

  /** Scan a scope from the end, then climb. */
  function Resolved(symbols: seq<Symbol>, scope: nat, name: string): Option<nat>
    decreases scope
  {
    var found := LastIn(symbols, scope, name);
    if found.Some? then found
    else if scope < |symbols| && symbols[scope].scope.Some? && symbols[scope].scope.value < scope
    then Resolved(symbols, symbols[scope].scope.value, name)
    else None
  }

  // ---- what a scan finds ----

  /** A function, method, lambda or class of this name, in this scope. */
  ghost predicate Binds(s: Symbol, scope: nat, name: string) {
    s.scope == Some(scope) && s.name == name && s.kind != ModuleSymbol && s.kind != OtherSymbol
  }

  /** The last one of this name in this scope, and none after it. */
  lemma {:induction false} LastInIsLast(symbols: seq<Symbol>, scope: nat, name: string)
    ensures var r := LastIn(symbols, scope, name);
            && (r.Some? ==> Binds(symbols[r.value], scope, name))
            && (forall i :: 0 <= i < |symbols| && Binds(symbols[i], scope, name) ==> r.Some? && i <= r.value)
  {
    if symbols != [] {
      LastInIsLast(symbols[..|symbols| - 1], scope, name);
      assert forall i :: 0 <= i < |symbols| - 1 ==> symbols[..|symbols| - 1][i] == symbols[i];
    }
  }

  /** The last one of this qualified name. */
  lemma {:induction false} LastQualifiedIsLast(symbols: seq<Symbol>, qualified: string)
    ensures var r := LastQualified(symbols, qualified);
            && (r.Some? ==> r.value < |symbols| && symbols[r.value].qualified == qualified)
            && (forall i :: 0 <= i < |symbols| && symbols[i].qualified == qualified ==> r.Some? && i <= r.value)
  {
    if symbols != [] {
      LastQualifiedIsLast(symbols[..|symbols| - 1], qualified);
      assert forall i :: 0 <= i < |symbols| - 1 ==> symbols[..|symbols| - 1][i] == symbols[i];
    }
  }

  /** A function, method or lambda of this name. */
  ghost predicate Answers(s: Symbol, name: string) {
    s.name == name && (s.kind == FunctionSymbol || s.kind == MethodSymbol || s.kind == LambdaSymbol)
  }

  lemma {:induction false} AllNamedIsAll(symbols: seq<Symbol>, name: string)
    ensures var r := AllNamed(symbols, name);
            && (forall i: nat :: i in r <==> i < |symbols| && Answers(symbols[i], name))
            && (forall j, k :: 0 <= j < k < |r| ==> r[j] < r[k])
  {
    if symbols != [] {
      var init, n := symbols[..|symbols| - 1], |symbols| - 1;
      AllNamedIsAll(init, name);
      var before := AllNamed(init, name);
      var hit := symbols[n].name == name && IsCallable(symbols[n].kind);
      assert AllNamed(symbols, name) == if hit then before + [n] else before;
      assert forall i :: 0 <= i < n ==> init[i] == symbols[i];
      assert hit == Answers(symbols[n], name);
      hide AllNamed, IsCallable, Answers;
      AllBelow(before, n);
    }
  }

  lemma AllBelow(r: seq<nat>, n: nat)
    requires (forall i: nat :: i in r ==> i < n) && forall j, k :: 0 <= j < k < |r| ==> r[j] < r[k]
    ensures forall i: nat :: i in r + [n] <==> i in r || i == n
    ensures forall j, k :: 0 <= j < k < |r + [n]| ==> (r + [n])[j] < (r + [n])[k]
  {
    assert forall k :: 0 <= k < |r| ==> r[k] in r;
  }
}
