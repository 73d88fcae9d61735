/** What the symbol of a definition says: scope, kind and names. */
module SymbolContents {
  import opened Options
  import opened Lowering
  import opened SymbolTable
  import opened DefinitionScopes

  predicate Defines(n: AstNode) {
    n.kind == FunctionDef || n.kind == ClassDef || n.kind == Lambda
  }

  /** Node `a` is around node `d`. */
  ghost predicate IsAround(nodes: seq<AstNode>, a: nat, d: nat)
    requires IsArena(nodes) && d < |nodes|
    decreases d
  {
    nodes[d].parent.Some? && (a == nodes[d].parent.value || IsAround(nodes, a, nodes[d].parent.value))
  }

  /** Definition `a` is around `d`, and no other definition is between them. */
  ghost predicate IsNearest(nodes: seq<AstNode>, a: nat, d: nat)
    requires IsArena(nodes) && d < |nodes|
  {
    && a < |nodes| && IsAround(nodes, a, d) && Defines(nodes[a])
    && forall b: nat :: b < |nodes| && IsAround(nodes, b, d) && Defines(nodes[b]) ==> b == a || IsAround(nodes, b, a)
  }

  lemma {:induction false} AroundBefore(nodes: seq<AstNode>, a: nat, d: nat)
    requires IsArena(nodes) && d < |nodes| && IsAround(nodes, a, d)
    ensures a < d
    decreases d
  {
    var p := nodes[d].parent.value;
    if a != p {
      AroundBefore(nodes, a, p);
    }
  }

  lemma {:induction false} NearestIs(nodes: seq<AstNode>, d: nat)
    requires IsArena(nodes) && d < |nodes|
    ensures match Innermost(nodes, nodes[d].parent)
            case None => forall b: nat :: b < |nodes| && IsAround(nodes, b, d) ==> !Defines(nodes[b])
            case Some(a) => IsNearest(nodes, a, d)
    decreases d
  {
    if nodes[d].parent.Some? {
      var p := nodes[d].parent.value;
      NearestIs(nodes, p);
      hide Innermost, IsAround, IsArena;
      NearestStep(nodes, d);
    }
  }

  lemma NearestStep(nodes: seq<AstNode>, d: nat)
    requires IsArena(nodes) && d < |nodes| && nodes[d].parent.Some?
    ensures nodes[d].parent.value < d
    ensures var p := nodes[d].parent.value;
            && Innermost(nodes, nodes[d].parent) == (if Defines(nodes[p]) then Some(p) else Innermost(nodes, nodes[p].parent))
            && forall b: nat :: IsAround(nodes, b, d) <==> b == p || IsAround(nodes, b, p)
  {
  }

  /** A lambda is numbered in its file; a definition without a name that could be read has a name too. */
  function NameOf(nodes: seq<AstNode>, names: map<nat, string>, d: nat): string
    requires d < |nodes|
  {
    if nodes[d].kind == Lambda then "<lambda#" + Decimal(Lambdas(nodes, d)) + ">" else if d in names then names[d] else "<unnamed>"
  }

  /** The symbol of definition `d`, scoped to symbol `m`. */
  ghost predicate Describes(s: Symbol, nodes: seq<AstNode>, names: map<nat, string>, module_: nat, d: nat, m: nat, scope: Symbol)
    requires IsArena(nodes) && d < |nodes|
  {
    && s.node == Some(d) && s.scope == Some(m) && m < s.id
    && (if exists a: nat :: IsNearest(nodes, a, d) then scope.node.Some? && IsNearest(nodes, scope.node.value, d) else m == module_)
    && (nodes[d].kind == ClassDef ==> s.kind == ClassSymbol) && (nodes[d].kind == Lambda ==> s.kind == LambdaSymbol)
    && (nodes[d].kind == FunctionDef ==> s.kind == if scope.kind == ClassSymbol then MethodSymbol else FunctionSymbol)
    && s.name == NameOf(nodes, names, d) && s.qualified == scope.qualified + "." + s.name
  }

  lemma {:induction false} Stays(nodes: seq<AstNode>, names: map<nat, string>, before: seq<Symbol>, module_: nat, i: nat, j: nat)
    requires i <= j <= |nodes| && module_ + 1 == |before|
    ensures SymbolsUpTo(nodes, names, before, module_, i) <= SymbolsUpTo(nodes, names, before, module_, j)
    decreases j
  {
    if i < j {
      Stays(nodes, names, before, module_, i, j - 1);
      NextSymbol(nodes, names, before, module_, j - 1);
      hide *;
    }
  }

  /** The symbol a definition adds, among those there are when it is added. */
  lemma Added(nodes: seq<AstNode>, names: map<nat, string>, before: seq<Symbol>, module_: nat, d: nat)
    requires IsArena(nodes) && d < |nodes| && module_ + 1 == |before| && Defines(nodes[d])
    ensures var symbols, more := SymbolsUpTo(nodes, names, before, module_, d), SymbolsUpTo(nodes, names, before, module_, d + 1);
            var k, m := module_ + 1 + Before(nodes, d), ScopeOf(nodes, module_, d);
            && |symbols| == k && m < k && |more| == k + 1 && symbols <= more && more[k] == SymbolFor(nodes, names, symbols, module_, d)
            && more[k].id == k && more[k].node == Some(d) && more[k].scope == Some(m) && more[k].kind == KindFor(nodes[d].kind, symbols[m].kind)
            && more[k].name == NameOf(nodes, names, d) && more[k].qualified == symbols[m].qualified + "." + more[k].name
  {
    ScopeBefore(nodes, module_, d);
    NextSymbol(nodes, names, before, module_, d);
    hide Innermost, Decimal, Lambdas, KindFor, IsArena, Before;
  }

  /** The scope symbol stands for the nearest definition around, or is the module's. */
  lemma ScopeIs(nodes: seq<AstNode>, names: map<nat, string>, before: seq<Symbol>, module_: nat, d: nat)
    requires IsArena(nodes) && d < |nodes| && module_ + 1 == |before|
    ensures var symbols, m := SymbolsUpTo(nodes, names, before, module_, d), ScopeOf(nodes, module_, d);
            && m < |symbols|
            && (if exists a: nat :: IsNearest(nodes, a, d) then symbols[m].node.Some? && IsNearest(nodes, symbols[m].node.value, d) else m == module_)
  {
    NearestIs(nodes, d);
    ScopeInside(nodes, names, before, module_, d);
    var inner := Innermost(nodes, nodes[d].parent);
    hide Innermost, IsAround, SymbolsUpTo, ScopeOf, IsArena;
    if inner.Some? {
      InnermostSymbol(nodes, names, before, module_, d, inner.value);
      hide IsNearest;
    }
  }

  lemma ScopeInside(nodes: seq<AstNode>, names: map<nat, string>, before: seq<Symbol>, module_: nat, d: nat)
    requires IsArena(nodes) && d < |nodes| && module_ + 1 == |before|
    ensures ScopeOf(nodes, module_, d) < |SymbolsUpTo(nodes, names, before, module_, d)|
    ensures Innermost(nodes, nodes[d].parent) == None ==> ScopeOf(nodes, module_, d) == module_
  {
    ScopeThere(nodes, d);
    hide Innermost, SymbolsUpTo, Before, IsArena;
  }

  lemma InnermostSymbol(nodes: seq<AstNode>, names: map<nat, string>, before: seq<Symbol>, module_: nat, d: nat, a: nat)
    requires IsArena(nodes) && d < |nodes| && module_ + 1 == |before| && Innermost(nodes, nodes[d].parent) == Some(a)
    ensures ScopeOf(nodes, module_, d) < |SymbolsUpTo(nodes, names, before, module_, d)|
    ensures SymbolsUpTo(nodes, names, before, module_, d)[ScopeOf(nodes, module_, d)].node == Some(a)
  {
    ScopeThere(nodes, d);
    InnermostFirst(nodes, nodes[d].parent);
    hide Innermost, SymbolsUpTo, Before, SymbolFor, IsArena;
    Added(nodes, names, before, module_, a);
    Stays(nodes, names, before, module_, a + 1, d);
  }

  /** Of every file's definitions: the table has a symbol for it that says where it stands, what it is and
      how it is called, after those of the definitions before it. */
  lemma SymbolIs(nodes: seq<AstNode>, names: map<nat, string>, before: seq<Symbol>, module_: nat, d: nat)
    requires IsArena(nodes) && d < |nodes| && module_ + 1 == |before| && Defines(nodes[d])
    ensures var symbols, k := SymbolsUpTo(nodes, names, before, module_, |nodes|), module_ + 1 + Before(nodes, d);
            && k < |symbols| && symbols[k].id == k
            && exists m: nat :: m < k && Describes(symbols[k], nodes, names, module_, d, m, symbols[m])
  {
    Added(nodes, names, before, module_, d);
    ScopeIs(nodes, names, before, module_, d);
    Stays(nodes, names, before, module_, d + 1, |nodes|);
    var symbols, k, m := SymbolsUpTo(nodes, names, before, module_, |nodes|), module_ + 1 + Before(nodes, d), ScopeOf(nodes, module_, d);
    hide SymbolsUpTo, Before, SymbolFor, ScopeOf, IsArena, IsNearest, NameOf;
    assert Describes(symbols[k], nodes, names, module_, d, m, symbols[m]);
  }

  // ---- lambdas ----

  lemma {:induction false} LambdasGrow(nodes: seq<AstNode>, i: nat, j: nat)
    requires i < j <= |nodes| && nodes[i].kind.Lambda?
    ensures Lambdas(nodes, i) < Lambdas(nodes, j)
    decreases j
  {
    if i < j - 1 {
      LambdasGrow(nodes, i, j - 1);
    }
  }

  /** The number that decimal digits stand for. */
  function NumberOf(s: string): int {
    if s == [] then 0 else 10 * NumberOf(s[..|s| - 1]) + (s[|s| - 1] as int - 48)
  }

  lemma {:induction false} DecimalBack(n: nat)
    ensures NumberOf(Decimal(n)) == n
    decreases n
  {
    if n >= 10 {
      DecimalBack(n / 10);
      OneDigit(n % 10);
      var a, b := Decimal(n / 10), Decimal(n % 10);
      assert (a + b)[..|a + b| - 1] == a;
    } else {
      OneDigit(n);
      assert Decimal(n)[..0] == [];
    }
  }

  lemma OneDigit(n: nat)
    requires n < 10
    ensures |Decimal(n)| == 1 && Decimal(n)[0] as int == 48 + n
  {
  }

  /** No two lambdas of a file have the same name. */
  lemma LambdasApart(nodes: seq<AstNode>, names: map<nat, string>, c: nat, d: nat)
    requires c < d < |nodes| && nodes[c].kind == Lambda && nodes[d].kind == Lambda
    ensures NameOf(nodes, names, c) != NameOf(nodes, names, d)
  {
    LambdasGrow(nodes, c, d);
    var m, n := Lambdas(nodes, c), Lambdas(nodes, d);
    DecimalBack(m);
    DecimalBack(n);
    var a, b := Decimal(m), Decimal(n);
    var open, close := "<lambda#", ">";
    hide Lambdas, Decimal, NumberOf;
    if open + a + close == open + b + close {
      Between(open, close, a, b);
    }
  }

  lemma Between(open: string, close: string, a: string, b: string)
    requires open + a + close == open + b + close
    ensures a == b
  {
    var s := open + a + close;
    assert |a| == |b|;
    assert s[|open|..|open| + |a|] == a;
    assert (open + b + close)[|open|..|open| + |b|] == b;
  }
}
