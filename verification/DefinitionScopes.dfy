/** From an arena to symbols scoped to their innermost enclosing definition. */
module DefinitionScopes {
  import opened Options
  import opened Lowering
  import opened SymbolTable

  predicate DefinesSymbol(k: AstKind) {
    k.FunctionDef? || k.ClassDef? || k.Lambda?
  }

  /** The arena of a file: a root, and parents before their children. */
  ghost predicate IsArena(nodes: seq<AstNode>) {
    |nodes| > 0 && forall i :: 0 <= i < |nodes| ==> nodes[i].id == i && (nodes[i].parent.Some? ==> nodes[i].parent.value < i)
  }

  /** The innermost definition among a node and its ancestors. */
  function Innermost(nodes: seq<AstNode>, at: Option<nat>): Option<nat>
    decreases if at.Some? then at.value + 1 else 0
  {
    if at.None? || at.value >= |nodes| then None
    else if DefinesSymbol(nodes[at.value].kind) then at
    else if nodes[at.value].parent.Some? && nodes[at.value].parent.value < at.value then Innermost(nodes, nodes[at.value].parent)
    else None
  }

  /** The number of definitions before node `i`: where node `i`'s symbol goes among the file's. */
  function Before(nodes: seq<AstNode>, i: nat): nat
    requires i <= |nodes|
  {
    if i == 0 then 0 else Before(nodes, i - 1) + if DefinesSymbol(nodes[i - 1].kind) then 1 else 0
  }

  function Lambdas(nodes: seq<AstNode>, i: nat): nat
    requires i <= |nodes|
  {
    if i == 0 then 0 else Lambdas(nodes, i - 1) + if nodes[i - 1].kind.Lambda? then 1 else 0
  }

  function Decimal(n: nat): string {
    if n < 10 then [(n as char) + '0'] else Decimal(n / 10) + Decimal(n % 10)
  }

  /** The symbol of definition node `i`, `module_` being the file's module symbol. */
  function SymbolFor(nodes: seq<AstNode>, names: map<nat, string>, symbols: seq<Symbol>, module_: nat, i: nat): Symbol
    requires i < |nodes| && module_ < |symbols|
  {
    var inner := Innermost(nodes, nodes[i].parent);
    var scope := if inner.Some? && inner.value < |nodes| then module_ + 1 + Before(nodes, inner.value) else module_;
    var outer := if scope < |symbols| then symbols[scope] else symbols[module_];
    var name :=
      if nodes[i].kind.Lambda? then "<lambda#" + Decimal(Lambdas(nodes, i)) + ">"
      else if i in names then names[i]
      else "<unnamed>";
    Symbol(|symbols|, name, outer.qualified + "." + name, KindFor(nodes[i].kind, outer.kind), Some(i), Some(scope))
  }

  function KindFor(k: AstKind, outer: SymbolKind): SymbolKind {
    if k.ClassDef? then ClassSymbol
    else if k.Lambda? then LambdaSymbol
    else if outer.ClassSymbol? then MethodSymbol
    else FunctionSymbol
  }

  /** The symbols of a file's first `i` nodes, after those of earlier files. */
  function SymbolsUpTo(nodes: seq<AstNode>, names: map<nat, string>, symbols: seq<Symbol>, module_: nat, i: nat): (r: seq<Symbol>)
    requires i <= |nodes| && module_ + 1 == |symbols|
    ensures |r| == |symbols| + Before(nodes, i)
    ensures symbols <= r
  {
    if i == 0 then symbols
    else
      var r := SymbolsUpTo(nodes, names, symbols, module_, i - 1);
      if DefinesSymbol(nodes[i - 1].kind) then r + [SymbolFor(nodes, names, r, module_, i - 1)] else r
  }

  lemma {:induction false} InnermostFirst(nodes: seq<AstNode>, at: Option<nat>)
    ensures var r := Innermost(nodes, at); r.Some? ==> at.Some? && r.value <= at.value && r.value < |nodes| && DefinesSymbol(nodes[r.value].kind)
    decreases if at.Some? then at.value + 1 else 0
  {
    if at.Some? && at.value < |nodes| && !DefinesSymbol(nodes[at.value].kind) && nodes[at.value].parent.Some? && nodes[at.value].parent.value < at.value {
      InnermostFirst(nodes, nodes[at.value].parent);
    }
  }

  lemma {:induction false} BeforeMono(nodes: seq<AstNode>, i: nat, j: nat)
    requires i <= j <= |nodes|
    ensures Before(nodes, i) <= Before(nodes, j)
    ensures i < j && DefinesSymbol(nodes[i].kind) ==> Before(nodes, i) < Before(nodes, j)
    decreases j - i
  {
    if i < j {
      BeforeMono(nodes, i, j - 1);
    }
  }

  /** The map holds the symbol of every definition among the first `i` nodes. */
  ghost predicate MapsDefinitions(nodes: seq<AstNode>, module_: nat, i: nat, symbolOf: map<nat, nat>)
    requires i <= |nodes|
  {
    && (forall n: nat :: n in symbolOf <==> n < i && DefinesSymbol(nodes[n].kind))
    && (forall n: nat :: n in symbolOf ==> symbolOf[n] == module_ + 1 + Before(nodes, n))
  }

  /** The nearest ancestor that is itself a definition, climbing parents. */
  method EnclosingScope(nodes: seq<AstNode>, parent: Option<nat>, symbolOf: map<nat, nat>, ghost module_: nat, ghost i: nat) returns (r: Option<nat>)
    requires IsArena(nodes) && i <= |nodes| && MapsDefinitions(nodes, module_, i, symbolOf)
    requires parent.Some? ==> parent.value < i
    ensures r == match Innermost(nodes, parent) case None => None case Some(n) => if n < |nodes| then Some(module_ + 1 + Before(nodes, n)) else None
  {
    InnermostFirst(nodes, parent);
    var p: Option<nat> := parent;
    while p.Some?
      invariant p.Some? ==> p.value < i && Innermost(nodes, p) == Innermost(nodes, parent)
      invariant p.None? ==> Innermost(nodes, parent) == None
      decreases if p.Some? then p.value + 1 else 0
    {
      if p.value in symbolOf {
        return Some(symbolOf[p.value]);
      }
      p := nodes[p.value].parent;
    }
    r := None;
  }

  /** The symbol of the innermost definition around node `i`, or the module's. */
  function ScopeOf(nodes: seq<AstNode>, module_: nat, i: nat): nat
    requires i < |nodes|
  {
    var inner := Innermost(nodes, nodes[i].parent);
    if inner.Some? && inner.value < |nodes| then module_ + 1 + Before(nodes, inner.value) else module_
  }

  /** The symbols so far: those of the first `i` nodes, mapped. */
  ghost predicate Adding(nodes: seq<AstNode>, names: map<nat, string>, before: seq<Symbol>, module_: nat, i: nat,
                         symbols: seq<Symbol>, symbolOf: map<nat, nat>, lambdas: nat)
  {
    && i <= |nodes| && module_ + 1 == |before|
    && symbols == SymbolsUpTo(nodes, names, before, module_, i)
    && MapsDefinitions(nodes, module_, i, symbolOf) && lambdas == Lambdas(nodes, i)
  }

  lemma ScopeThere(nodes: seq<AstNode>, i: nat)
    requires IsArena(nodes) && i < |nodes|
    ensures var inner := Innermost(nodes, nodes[i].parent); inner.Some? ==> inner.value < i && Before(nodes, inner.value) < Before(nodes, i)
  {
    InnermostFirst(nodes, nodes[i].parent);
    var inner := Innermost(nodes, nodes[i].parent);
    if inner.Some? {
      BeforeMono(nodes, inner.value, i);
    }
  }

  lemma AddedNext(nodes: seq<AstNode>, names: map<nat, string>, before: seq<Symbol>, module_: nat, i: nat,
                  symbols: seq<Symbol>, symbolOf: map<nat, nat>, lambdas: nat)
    requires IsArena(nodes) && i < |nodes| && Adding(nodes, names, before, module_, i, symbols, symbolOf, lambdas)
    ensures |symbols| == module_ + 1 + Before(nodes, i) && ScopeOf(nodes, module_, i) < |symbols|
    ensures !DefinesSymbol(nodes[i].kind) ==> Adding(nodes, names, before, module_, i + 1, symbols, symbolOf, lambdas)
    ensures DefinesSymbol(nodes[i].kind) ==>
      Adding(nodes, names, before, module_, i + 1, symbols + [SymbolFor(nodes, names, symbols, module_, i)], symbolOf[i := |symbols|],
             lambdas + if nodes[i].kind.Lambda? then 1 else 0)
  {
    ScopeThere(nodes, i);
  }

  /** Creates a symbol for every definition of a file, in pre-order. */
  method AddDefinitions(table: Table, nodes: seq<AstNode>, names: map<nat, string>, module_: nat)
    requires table.Valid() && IsArena(nodes) && module_ + 1 == |table.symbols|
    modifies table
    ensures table.Valid() && table.symbols == SymbolsUpTo(nodes, names, old(table.symbols), module_, |nodes|)
  {
    var symbolOf: map<nat, nat> := map[];
    var lambdas := 0;
    ghost var before := table.symbols;
    for i := 0 to |nodes|
      invariant table.Valid() && Adding(nodes, names, before, module_, i, table.symbols, symbolOf, lambdas)
    {
      AddedNext(nodes, names, before, module_, i, table.symbols, symbolOf, lambdas);
      if DefinesSymbol(nodes[i].kind) {
        var found := EnclosingScope(nodes, nodes[i].parent, symbolOf, module_, i);
        var scope := if found.Some? then found.value else module_;
        assert scope == ScopeOf(nodes, module_, i);
        var outer := table.symbols[scope];
        var name :=
          if nodes[i].kind.Lambda? then "<lambda#" + Decimal(lambdas) + ">"
          else if i in names then names[i]
          else "<unnamed>";
        var symbol := Symbol(0, name, outer.qualified + "." + name, KindFor(nodes[i].kind, outer.kind), Some(i), Some(scope));
        assert symbol.(id := |table.symbols|) == SymbolFor(nodes, names, table.symbols, module_, i);
        hide Adding, SymbolFor, Innermost, Before, MapsDefinitions, SymbolsUpTo, Table.Valid;
        var sym := table.Push(symbol);
        symbolOf := symbolOf[i := sym];
        lambdas := lambdas + if nodes[i].kind.Lambda? then 1 else 0;
      }
    }
  }

  /** A file: its module symbol, then its definitions. */
  method AddFile(table: Table, nodes: seq<AstNode>, names: map<nat, string>, dotted: string) returns (module_: nat)
    requires table.Valid() && IsArena(nodes)
    modifies table
    ensures table.Valid() && module_ == |old(table.symbols)|
    ensures table.symbols == SymbolsUpTo(nodes, names, old(table.symbols) + [ModuleSymbolOf(module_, dotted)], module_, |nodes|)
  {
    module_ := table.Push(ModuleSymbolOf(0, dotted));
    AddDefinitions(table, nodes, names, module_);
  }

  function ModuleSymbolOf(id: nat, dotted: string): Symbol {
    Symbol(id, "<module>", dotted, ModuleSymbol, Some(0), None)
  }

  // ---- what the table then holds ----

  /** The symbol of definition node `d` is where its position says, stands for `d`, and is
      scoped to the innermost definition around `d`, a symbol pushed before it. */
  lemma {:induction false} InnermostScope(nodes: seq<AstNode>, names: map<nat, string>, before: seq<Symbol>, module_: nat, i: nat, d: nat)
    requires IsArena(nodes) && d < i <= |nodes| && module_ + 1 == |before| && DefinesSymbol(nodes[d].kind)
    ensures var symbols, k := SymbolsUpTo(nodes, names, before, module_, i), module_ + 1 + Before(nodes, d);
            && k < |symbols| && symbols[k].id == k && symbols[k].node == Some(d)
            && symbols[k].scope == Some(ScopeOf(nodes, module_, d)) && ScopeOf(nodes, module_, d) < k
  {
    ScopeBefore(nodes, module_, d);
    NextSymbol(nodes, names, before, module_, i - 1);
    hide *;
    if d < i - 1 {
      InnermostScope(nodes, names, before, module_, i - 1, d);
    }
  }

  lemma ScopeBefore(nodes: seq<AstNode>, module_: nat, d: nat)
    requires IsArena(nodes) && d < |nodes|
    ensures ScopeOf(nodes, module_, d) < module_ + 1 + Before(nodes, d)
  {
    ScopeThere(nodes, d);
    hide Innermost, Before, IsArena;
  }

  /** What node `i` adds to the symbols. */
  lemma NextSymbol(nodes: seq<AstNode>, names: map<nat, string>, before: seq<Symbol>, module_: nat, i: nat)
    requires i < |nodes| && module_ + 1 == |before|
    ensures var symbols, more := SymbolsUpTo(nodes, names, before, module_, i), SymbolsUpTo(nodes, names, before, module_, i + 1);
            && symbols <= more && |symbols| == module_ + 1 + Before(nodes, i)
            && (DefinesSymbol(nodes[i].kind) ==> |more| == |symbols| + 1 && more[|symbols|].id == |symbols| && more[|symbols|].node == Some(i)
                                                 && more[|symbols|].scope == Some(ScopeOf(nodes, module_, i)))
  {
    hide Innermost, Decimal, Lambdas, KindFor;
  }

  /** Scopes come before what they enclose, file after file. */
  lemma {:induction false} ScopesStayFirst(nodes: seq<AstNode>, names: map<nat, string>, before: seq<Symbol>, module_: nat, i: nat)
    requires IsArena(nodes) && i <= |nodes| && module_ + 1 == |before| && ScopesFirst(before)
    ensures ScopesFirst(SymbolsUpTo(nodes, names, before, module_, i))
  {
    if i > 0 {
      ScopesStayFirst(nodes, names, before, module_, i - 1);
      ScopeBefore(nodes, module_, i - 1);
      NextSymbol(nodes, names, before, module_, i - 1);
      hide Innermost, Before, IsArena, SymbolFor, ScopeOf;
    }
  }

  datatype File = File(nodes: seq<AstNode>, names: map<nat, string>, dotted: string)

  /** The symbols of a package, file by file. */
  function SymbolsOf(files: seq<File>): seq<Symbol> {
    if files == [] then []
    else
      var before, f := SymbolsOf(files[..|files| - 1]), files[|files| - 1];
      SymbolsUpTo(f.nodes, f.names, before + [ModuleSymbolOf(|before|, f.dotted)], |before|, |f.nodes|)
  }

  /** After any build the indexes agree with scans, and scopes come first, so climbing ends. */
  method BuildSymbols(files: seq<File>) returns (table: Table)
    requires forall k :: 0 <= k < |files| ==> IsArena(files[k].nodes)
    ensures table.Valid() && table.symbols == SymbolsOf(files) && ScopesFirst(table.symbols)
  {
    table := new Table();
    for i := 0 to |files|
      invariant fresh(table) && table.Valid() && table.symbols == SymbolsOf(files[..i]) && ScopesFirst(table.symbols)
    {
      hide IsArena, Table.Valid;
      assert files[..i + 1][..i] == files[..i];
      var f := files[i];
      ghost var before := table.symbols;
      assert IsArena(f.nodes);
      var module_ := AddFile(table, f.nodes, f.names, f.dotted);
      ScopesStayFirst(f.nodes, f.names, before + [ModuleSymbolOf(module_, f.dotted)], module_, |f.nodes|);
    }
    assert files[..|files|] == files;
  }

  /** The arena the lowering builds is one the table can be built from. */
  lemma LoweredIsArena(root: Tree)
    requires Emitted(root)
    ensures IsArena(ArenaAll(CollapseTree(None, root), 0, None))
  {
    var nodes := ArenaAll(CollapseTree(None, root), 0, None);
    forall i | 0 <= i < |nodes| ensures nodes[i].id == i && (nodes[i].parent.Some? ==> nodes[i].parent.value < i) {
      LoweringContract(root, i);
    }
  }
}
