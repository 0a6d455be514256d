/**
 * The annotation-chain check of common/src/semantic/analyzer.rs. Each
 * declaration's top-level expressions are scanned with one flag saying whether
 * an `@if` chain is open; an `@elseif` or `@else` outside such a chain is a
 * semantic error naming that annotation. The Rust code panics on the error;
 * here the check returns `Fail` with the annotation's token data.
 */
module Analyzer {
  import opened Wrappers
  import opened Source
  import opened Ast

  /** An annotation whose name is `name`. */
  predicate IsAnnotationNamed(e: Expr, name: string)
  {
    e.Annotation? && e.name.text == name
  }

  predicate IsIf(e: Expr) { IsAnnotationNamed(e, "if") }

  /** `@elseif` or `@else`: the annotations that continue a chain. */
  predicate IsBranch(e: Expr) { IsAnnotationNamed(e, "elseif") || IsAnnotationNamed(e, "else") }

  /** One element of the scan: the flag after `e` when it was `open` before, or the annotation that
      is out of place. */
  function Step(open: bool, e: Expr): Result<bool, TokenData>
  {
    if IsIf(e) then Ok(true)
    else if IsBranch(e) then (if open then Ok(true) else Err(e.name))
    else Ok(false)
  }

  /** The scan of `validate_annotations` from position `i`, with the flag `open`. */
  function ValidateFrom(exprs: seq<Expr>, i: nat, open: bool): Outcome<TokenData>
    requires i <= |exprs|
    decreases |exprs| - i
  {
    if i == |exprs| then Pass
    else
      match Step(open, exprs[i])
      case Err(name) => Fail(name)
      case Ok(next) => ValidateFrom(exprs, i + 1, next)
  }

  /** `validate_annotations`: the scan of one anonymous type, starting with the chain closed. */
  function ValidateAnnotations(exprs: seq<Expr>): Outcome<TokenData>
  {
    ValidateFrom(exprs, 0, false)
  }

  /** The check of the declarations from `i` on, stopping at the first that fails. */
  function AnalyzeFrom(ast: seq<Declaration>, i: nat): Outcome<TokenData>
    requires i <= |ast|
    decreases |ast| - i
  {
    if i == |ast| then Pass
    else
      match ValidateAnnotations(ast[i].t)
      case Fail(name) => Fail(name)
      case Pass => AnalyzeFrom(ast, i + 1)
  }

  /** `analyze`: every declaration's expressions are checked on their own. */
  function Analyze(ast: seq<Declaration>): Outcome<TokenData>
  {
    AnalyzeFrom(ast, 0)
  }

  // ---------------------------------------------------------------------------
  // The loops of the Rust code

  /** The `for` loop of `validate_annotations` with its `valid_context` flag. */
  method CheckAnnotations(exprs: seq<Expr>) returns (r: Outcome<TokenData>)
    ensures r == ValidateAnnotations(exprs)
  {
    var validContext := false;
    var i := 0;
    while i < |exprs|
      invariant i <= |exprs|
      invariant ValidateAnnotations(exprs) == ValidateFrom(exprs, i, validContext)
    {
      var e := exprs[i];
      if e.Annotation? {
        if e.name.text == "if" {
          validContext := true;
        } else if e.name.text == "elseif" || e.name.text == "else" {
          if !validContext {
            return Fail(e.name);
          }
        } else {
          validContext := false;
        }
      } else {
        validContext := false;
      }
      i := i + 1;
    }
    return Pass;
  }

  /** The `for` loop of `analyze`. */
  method CheckDeclarations(ast: seq<Declaration>) returns (r: Outcome<TokenData>)
    ensures r == Analyze(ast)
  {
    var i := 0;
    while i < |ast|
      invariant i <= |ast|
      invariant Analyze(ast) == AnalyzeFrom(ast, i)
    {
      var v := CheckAnnotations(ast[i].t);
      if v.Fail? {
        return v;
      }
      i := i + 1;
    }
    return Pass;
  }

  // ---------------------------------------------------------------------------
  // What the flag means

  /** The chain is open before position `k`: some `@if` precedes it, and only `@elseif` and `@else`
      come between that `@if` and `k`. */
  ghost predicate ChainOpen(exprs: seq<Expr>, k: nat)
    requires k <= |exprs|
  {
    exists j :: 0 <= j < k && IsIf(exprs[j]) && forall m :: j < m < k ==> IsBranch(exprs[m])
  }

  /** The element at `k` is an `@elseif` or `@else` outside any chain. */
  ghost predicate Misplaced(exprs: seq<Expr>, k: nat)
    requires k < |exprs|
  {
    IsBranch(exprs[k]) && !ChainOpen(exprs, k)
  }

  /** The flag the scan holds before position `k`, had it not stopped. */
  function FlagAt(exprs: seq<Expr>, k: nat): bool
    requires k <= |exprs|
    decreases k
  {
    if k == 0 then false
    else if IsIf(exprs[k - 1]) then true
    else if IsBranch(exprs[k - 1]) then FlagAt(exprs, k - 1)
    else false
  }

  /** The flag is set exactly when a chain is open. */
  lemma {:induction false} FlagIsChainOpen(exprs: seq<Expr>, k: nat)
    requires k <= |exprs|
    ensures FlagAt(exprs, k) <==> ChainOpen(exprs, k)
    decreases k
  {
    if k > 0 {
      var e := exprs[k - 1];
      if IsIf(e) {
        assert IsIf(exprs[k - 1]);
      } else if IsBranch(e) {
        FlagIsChainOpen(exprs, k - 1);
        if ChainOpen(exprs, k) {
          var j :| 0 <= j < k && IsIf(exprs[j]) && forall m :: j < m < k ==> IsBranch(exprs[m]);
          assert j < k - 1;
          assert ChainOpen(exprs, k - 1);
        }
        if ChainOpen(exprs, k - 1) {
          var j :| 0 <= j < k - 1 && IsIf(exprs[j]) && forall m :: j < m < k - 1 ==> IsBranch(exprs[m]);
          assert forall m :: j < m < k ==> IsBranch(exprs[m]);
        }
      } else {
        forall j | 0 <= j < k && IsIf(exprs[j])
          ensures j < k - 1 && !IsBranch(exprs[k - 1])
        {
        }
      }
    }
  }

  /** The scan from `i` with the flag it holds there passes exactly when nothing from `i` on is out of
      place, and otherwise fails naming the first element that is. */
  lemma {:induction false} ValidateFromFirstMisplaced(exprs: seq<Expr>, i: nat)
    requires i <= |exprs|
    ensures var r := ValidateFrom(exprs, i, FlagAt(exprs, i));
      && (r.Pass? <==> forall k :: i <= k < |exprs| ==> !(IsBranch(exprs[k]) && !FlagAt(exprs, k)))
      && (r.Fail? ==> exists k :: i <= k < |exprs| && IsBranch(exprs[k]) && !FlagAt(exprs, k)
                        && r.error == exprs[k].name
                        && forall m :: i <= m < k ==> !(IsBranch(exprs[m]) && !FlagAt(exprs, m)))
    decreases |exprs| - i
  {
    if i < |exprs| {
      var step := Step(FlagAt(exprs, i), exprs[i]);
      if step.Ok? {
        assert step.value == FlagAt(exprs, i + 1);
        ValidateFromFirstMisplaced(exprs, i + 1);
      }
    }
  }

  /** `validate_annotations` passes exactly when no `@elseif` or `@else` is out of place, and
      otherwise names the first one that is. */
  lemma ValidateAnnotationsMeaning(exprs: seq<Expr>)
    ensures ValidateAnnotations(exprs).Pass? <==> forall k :: 0 <= k < |exprs| ==> !Misplaced(exprs, k)
    ensures ValidateAnnotations(exprs).Fail? ==>
      exists k :: 0 <= k < |exprs| && Misplaced(exprs, k) && ValidateAnnotations(exprs).error == exprs[k].name
        && forall m :: 0 <= m < k ==> !Misplaced(exprs, m)
  {
    forall k | 0 <= k < |exprs|
      ensures Misplaced(exprs, k) <==> IsBranch(exprs[k]) && !FlagAt(exprs, k)
    {
      FlagIsChainOpen(exprs, k);
    }
    ValidateFromFirstMisplaced(exprs, 0);
  }

  /** `analyze` passes exactly when every declaration passes on its own, and otherwise reports the
      error of the first declaration that fails. */
  lemma {:induction false} AnalyzeFromFirstFailure(ast: seq<Declaration>, i: nat)
    requires i <= |ast|
    ensures AnalyzeFrom(ast, i).Pass? <==> forall k :: i <= k < |ast| ==> ValidateAnnotations(ast[k].t).Pass?
    ensures AnalyzeFrom(ast, i).Fail? ==>
      exists k :: i <= k < |ast| && ValidateAnnotations(ast[k].t) == AnalyzeFrom(ast, i)
        && forall m :: i <= m < k ==> ValidateAnnotations(ast[m].t).Pass?
    decreases |ast| - i
  {
    if i < |ast| && ValidateAnnotations(ast[i].t).Pass? {
      AnalyzeFromFirstFailure(ast, i + 1);
    }
  }

  lemma AnalyzeMeaning(ast: seq<Declaration>)
    ensures Analyze(ast).Pass? <==> forall k :: 0 <= k < |ast| ==> ValidateAnnotations(ast[k].t).Pass?
    ensures Analyze(ast).Fail? ==>
      exists k :: 0 <= k < |ast| && ValidateAnnotations(ast[k].t) == Analyze(ast)
        && forall m :: 0 <= m < k ==> ValidateAnnotations(ast[m].t).Pass?
  {
    AnalyzeFromFirstFailure(ast, 0);
  }

  /** Each declaration is checked with the chain closed: an `@if` ending one declaration does not
      open a chain for the next. */
  lemma ChainDoesNotCrossDeclarations(name1: TokenData, name2: TokenData, i: TokenData, e: TokenData)
    requires i.text == "if" && e.text == "else"
    ensures Analyze([TypeDecl(name1, [Annotation(i, [])]), TypeDecl(name2, [Annotation(e, [])])]) == Fail(e)
  {
    var ast := [TypeDecl(name1, [Annotation(i, [])]), TypeDecl(name2, [Annotation(e, [])])];
    assert ValidateFrom(ast[0].t, 1, true) == Pass;
    assert ValidateAnnotations(ast[0].t) == Pass;
    assert ValidateAnnotations(ast[1].t) == Fail(e);
    assert AnalyzeFrom(ast, 1) == Fail(e);
  }

  // ---------------------------------------------------------------------------
  // Examples

  /** `@elseif` and `@else` keep the chain open, so `@if @else @else` passes. */
  lemma IfElseElse(i: TokenData, e1: TokenData, e2: TokenData)
    requires i.text == "if" && e1.text == "else" && e2.text == "else"
    ensures ValidateAnnotations([Annotation(i, []), Annotation(e1, []), Annotation(e2, [])]) == Pass
  {
    var xs := [Annotation(i, []), Annotation(e1, []), Annotation(e2, [])];
    assert ValidateFrom(xs, 3, true) == Pass;
    assert ValidateFrom(xs, 2, true) == Pass;
    assert ValidateFrom(xs, 1, true) == Pass;
  }

  /** Any other element closes the chain: `@if x @else` fails at the `@else`. */
  lemma OtherElementCloses(i: TokenData, x: TokenData, e: TokenData)
    requires i.text == "if" && e.text == "else"
    ensures ValidateAnnotations([Annotation(i, []), Identifier(x), Annotation(e, [])]) == Fail(e)
  {
    var xs := [Annotation(i, []), Identifier(x), Annotation(e, [])];
    assert ValidateFrom(xs, 2, false) == Fail(e);
    assert ValidateFrom(xs, 1, true) == Fail(e);
  }

  /** A lone `@elseif` fails and names itself. */
  lemma LoneElseIf(e: TokenData, args: seq<seq<Expr>>)
    requires e.text == "elseif"
    ensures ValidateAnnotations([Annotation(e, args)]) == Fail(e)
  {
  }

  /** The scan is shallow: `@if(..) | @elseif(..)` is one binary element and is never looked into,
      even when its operands alone would fail. */
  lemma Shallow(l: seq<Expr>, r: seq<Expr>)
    requires |l| == 1 && |r| == 1 && IsBranch(l[0]) && IsBranch(r[0])
    ensures ValidateAnnotations(l) != Pass
    ensures ValidateAnnotations([BinaryExpr(Or, l[0], r[0])]) == Pass
  {
    assert ValidateFrom([BinaryExpr(Or, l[0], r[0])], 1, false) == Pass;
  }
}
