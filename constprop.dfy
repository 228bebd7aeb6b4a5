/**
 * Intraprocedural constant propagation: the flat constant lattice, the fact
 * type that maps variables to lattice values, the expression evaluator and the
 * transfer function of a statement.
 *
 * The lattice is `UNDEF` on top (no value has reached the variable yet), one
 * `CONST(c)` per `int`, and `NAC` (not a constant) at the bottom; the analysis
 * is a forward must-analysis whose meet is the greatest lower bound.
 */
module ConstantPropagation {
  import opened Wrappers
  import opened JavaInt
  import opened IR

  datatype Value = Undef | Const(c: Int32) | NAC

  /** `a` lies below (is no more precise than) `b`: NAC below everything, UNDEF above everything. */
  predicate Below(a: Value, b: Value)
  {
    a == b || a == NAC || b == Undef
  }

  /** The meet of two values. */
  function MeetValue(v1: Value, v2: Value): Value
  {
    if v1.NAC? || v2.NAC? then NAC
    else if v1.Undef? || v2.Undef? then (if v1.Undef? then v2 else v1)
    else if v1 == v2 then v1
    else NAC
  }

  // ---------------------------------------------------------------- facts

  /** A fact never stores UNDEF: an absent variable means UNDEF. */
  predicate Normal(m: map<Var, Value>)
  {
    forall v :: v in m ==> m[v] != Undef
  }

  /** A constant-propagation fact: the value of each variable, absent meaning UNDEF. */
  type Fact = m: map<Var, Value> | Normal(m) witness map[]

  function Get(f: Fact, v: Var): (r: Value)
    ensures r == Undef <==> v !in f
  {
    if v in f then f[v] else Undef
  }

  /**
   * The fact after `update(v, val)`: `v` now has `val` (UNDEF removes the
   * entry) and every other variable keeps its value.
   */
  function Update(f: Fact, v: Var, val: Value): (r: Fact)
    ensures Get(r, v) == val
    ensures forall w :: w != v ==> Get(r, w) == Get(f, w)
  {
    if val == Undef then f - {v} else f[v := val]
  }

  /** The empty fact: every variable UNDEF. */
  function NewInitialFact(): (r: Fact)
    ensures forall v :: Get(r, v) == Undef
  {
    map[]
  }

  /** `f` is pointwise below `g`. */
  ghost predicate FactBelow(f: Fact, g: Fact)
  {
    forall v :: Below(Get(f, v), Get(g, v))
  }

  /** Facts are determined by what `Get` returns. */
  lemma FactExtensionality(f: Fact, g: Fact)
    requires forall v :: Get(f, v) == Get(g, v)
    ensures f == g
  {
    assert f.Keys == g.Keys by {
      forall v | v in f ensures v in g {
        assert Get(f, v) != Undef;
      }
      forall v | v in g ensures v in f {
        assert Get(g, v) != Undef;
      }
    }
    forall v | v in f ensures f[v] == g[v] {
      assert Get(f, v) == Get(g, v);
    }
  }

  /** The change flag of `update` is exact: the fact changes iff the variable's value does. */
  lemma UpdateReportsChange(f: Fact, v: Var, val: Value)
    ensures Update(f, v, val) != f <==> Get(f, v) != val
  {
    if Get(f, v) == val {
      FactExtensionality(Update(f, v, val), f);
    }
  }

  // ---------------------------------------------------------------- the analysis

  /** The variables whose values the analysis tracks: those of the `int`-like primitive types. */
  predicate CanHoldInt(v: Var)
  {
    v.ty.Primitive? && v.ty.prim in {Byte, Short, Int, Char, Boolean}
  }

  /**
   * The fact at a method's entry: starting from the initial (empty) fact, each
   * parameter that can hold an `int` is updated to NAC.
   */
  method NewBoundaryFact(params: seq<Var>) returns (fact: Fact)
    ensures forall v :: Get(fact, v) == (if v in params && CanHoldInt(v) then NAC else Undef)
  {
    fact := NewInitialFact();
    var i := 0;
    while i < |params|
      invariant 0 <= i <= |params|
      invariant forall v :: Get(fact, v) == (if v in params[..i] && CanHoldInt(v) then NAC else Undef)
    {
      var param := params[i];
      if CanHoldInt(param) {
        fact := Update(fact, param, NAC);
      }
      assert params[..i + 1] == params[..i] + [param];
      i := i + 1;
    }
    assert params[..i] == params;
  }

  /** The fact `meetInto(fact, target)` leaves in `target`. */
  function MeetResult(fact: Fact, target: Fact): (r: Fact)
    ensures forall v :: (Get(r, v) ==
      if v in fact then MeetValue(Get(target, v), Get(fact, v)) else Get(target, v))
  {
    map v | v in fact.Keys + target.Keys :: if v in fact then MeetValue(Get(target, v), fact[v]) else target[v]
  }

  /**
   * `meetInto(fact, target)`: each variable of `fact` gets the meet of its
   * values in `target` and `fact`; every other variable of `target` is left alone.
   */
  method MeetInto(fact: Fact, target: Fact) returns (result: Fact)
    ensures forall v :: (Get(result, v) ==
      if v in fact then MeetValue(Get(target, v), Get(fact, v)) else Get(target, v))
  {
    result := target;
    var todo := fact.Keys;
    while todo != {}
      invariant todo <= fact.Keys
      invariant forall v :: (Get(result, v) ==
        if v in fact && v !in todo then MeetValue(Get(target, v), Get(fact, v)) else Get(target, v))
      decreases |todo|
    {
      var v :| v in todo;
      result := Update(result, v, MeetValue(Get(result, v), Get(fact, v)));
      todo := todo - {v};
    }
  }

  /** The value of `op` on two constants; comparisons give 1 or 0. */
  function EvaluateOp(op: BinaryOp, i1: Int32, i2: Int32): Int32
    requires op == Arithmetic(Div) || op == Arithmetic(Rem) ==> i2 != 0
  {
    match op
    case Arithmetic(a) =>
      (match a
       case Add => JavaInt.Add(i1, i2)
       case Sub => JavaInt.Sub(i1, i2)
       case Mul => JavaInt.Mul(i1, i2)
       case Div => JavaInt.Div(i1, i2)
       case Rem => JavaInt.Rem(i1, i2))
    case BitwiseBin(b) =>
      (match b
       case Or => JavaInt.Or(i1, i2)
       case And => JavaInt.And(i1, i2)
       case Xor => JavaInt.Xor(i1, i2))
    case Condition(c) =>
      var holds := match c
        case Eq => i1 == i2
        case Ne => i1 != i2
        case Lt => i1 < i2
        case Gt => i1 > i2
        case Le => i1 <= i2
        case Ge => i1 >= i2;
      if holds then 1 else 0
    case Shift(s) =>
      (match s
       case Shl => JavaInt.Shl(i1, i2)
       case Shr => JavaInt.Shr(i1, i2)
       case Ushr => JavaInt.Ushr(i1, i2))
  }

  predicate IsDivOrRem(op: BinaryOp)
  {
    op == Arithmetic(Div) || op == Arithmetic(Rem)
  }

  /** The abstract value of a variable: its fact entry if it can hold an `int`, else NAC. */
  function EvaluateVar(v: Var, fact: Fact): Value
  {
    if CanHoldInt(v) then Get(fact, v) else NAC
  }

  /** The abstract value of an expression in the fact `in`. */
  function Evaluate(e: Exp, fact: Fact): Value
  {
    match e
    case IntLiteral(i) => Const(i)
    case VarExp(v) => EvaluateVar(v, fact)
    case BinaryExp(op, x, y) =>
      var v1 := EvaluateVar(x, fact);
      var v2 := EvaluateVar(y, fact);
      if IsDivOrRem(op) && v2 == Const(0) then Undef
      else if v1.Const? && v2.Const? then Const(EvaluateOp(op, v1.c, v2.c))
      else if v1.NAC? || v2.NAC? then NAC
      else Undef
    case _ => NAC
  }

  /**
   * The specification of `transferNode`: a definition of a variable `lhs`
   * copies every other variable bound in `in` and sets `lhs` to the value of
   * the right-hand side (when `lhs` can hold an `int`); any other statement
   * makes OUT a copy of IN.
   */
  function TransferResult(s: Stmt, fin: Fact, fout: Fact): (r: Fact)
  {
    match DefinedVar(s)
    case None => fin
    case Some(lhs) =>
      var copied := CopyOthersResult(fin, fout, lhs);
      if CanHoldInt(lhs) then Update(copied, lhs, Evaluate(RValue(s), fin))
      else copied
  }

  /** OUT with every variable of IN other than `lhs` copied over it. */
  function CopyOthersResult(fin: Fact, fout: Fact, lhs: Var): (r: Fact)
    ensures forall v :: (Get(r, v) == if v in fin && v != lhs then Get(fin, v) else Get(fout, v))
  {
    map v | v in (fin.Keys - {lhs}) + fout.Keys :: if v in fin && v != lhs then fin[v] else fout[v]
  }

  /**
   * The loop of `transferNode` over a definition of `lhs`: every variable of
   * `in` other than `lhs` is updated into `out`, accumulating the change flags.
   */
  method CopyOthers(fin: Fact, fout: Fact, lhs: Var) returns (newOut: Fact, changed: bool)
    ensures forall v :: (Get(newOut, v) == if v in fin && v != lhs then Get(fin, v) else Get(fout, v))
    ensures newOut == CopyOthersResult(fin, fout, lhs)
    ensures changed <==> newOut != fout
  {
    newOut, changed := fout, false;
    var todo := fin.Keys;
    while todo != {}
      invariant todo <= fin.Keys
      invariant forall v :: (Get(newOut, v) ==
        if v in fin && v !in todo && v != lhs then Get(fin, v) else Get(fout, v))
      invariant changed <==> exists v :: v in fin && v !in todo && v != lhs && Get(fin, v) != Get(fout, v)
      decreases |todo|
    {
      var v :| v in todo;
      if v != lhs {
        var flag := Get(newOut, v) != Get(fin, v);
        newOut := Update(newOut, v, Get(fin, v));
        changed := changed || flag;
      }
      todo := todo - {v};
    }
    if !changed {
      FactExtensionality(newOut, fout);
    }
    FactExtensionality(newOut, CopyOthersResult(fin, fout, lhs));
  }

  /**
   * `transferNode(stmt, in, out)`: the new OUT and whether it differs from the old one.
   */
  method TransferNode(s: Stmt, fin: Fact, fout: Fact) returns (newOut: Fact, changed: bool)
    ensures newOut == TransferResult(s, fin, fout)
    ensures changed <==> newOut != fout
  {
    match DefinedVar(s)
    case None =>
      newOut, changed := fin, fin != fout;
    case Some(lhs) =>
      newOut, changed := CopyOthers(fin, fout, lhs);
      ghost var copied := newOut;
      if CanHoldInt(lhs) {
        var value := Evaluate(RValue(s), fin);
        var flag := Get(newOut, lhs) != value;
        newOut := Update(newOut, lhs, value);
        changed := flag || changed;
        if !changed {
          FactExtensionality(newOut, fout);
        } else if !flag {
          FactExtensionality(newOut, copied);
        } else {
          assert Get(newOut, lhs) != Get(fout, lhs);
        }
      }
      FactExtensionality(newOut, TransferResult(s, fin, fout));
  }

  // ---------------------------------------------------------------- lattice laws

  /** NAC absorbs: meeting with NAC gives NAC. */
  lemma MeetNacAbsorbs(v: Value)
    ensures MeetValue(NAC, v) == NAC && MeetValue(v, NAC) == NAC
  {
  }

  /** UNDEF is the identity of the meet. */
  lemma MeetUndefIdentity(v: Value)
    ensures MeetValue(Undef, v) == v && MeetValue(v, Undef) == v
  {
  }

  /** Two constants meet to that constant when equal and to NAC otherwise. */
  lemma MeetConstants(i: Int32, j: Int32)
    ensures MeetValue(Const(i), Const(j)) == if i == j then Const(i) else NAC
  {
  }

  /** The meet is commutative, associative and idempotent. */
  lemma MeetSemilattice(a: Value, b: Value, c: Value)
    ensures MeetValue(a, b) == MeetValue(b, a)
    ensures MeetValue(MeetValue(a, b), c) == MeetValue(a, MeetValue(b, c))
    ensures MeetValue(a, a) == a
  {
  }

  /** `Below` is a partial order. */
  lemma BelowPartialOrder(a: Value, b: Value, c: Value)
    ensures Below(a, a)
    ensures Below(a, b) && Below(b, a) ==> a == b
    ensures Below(a, b) && Below(b, c) ==> Below(a, c)
  {
  }

  /** The meet is the greatest lower bound for `Below`. */
  lemma MeetIsGreatestLowerBound(a: Value, b: Value, c: Value)
    ensures Below(MeetValue(a, b), a) && Below(MeetValue(a, b), b)
    ensures Below(c, a) && Below(c, b) ==> Below(c, MeetValue(a, b))
  {
  }

  /** After `meetInto` the target lies below both its old self and the incoming fact. */
  lemma MeetIntoLowers(fact: Fact, target: Fact, result: Fact)
    requires forall v :: (Get(result, v) ==
      if v in fact then MeetValue(Get(target, v), Get(fact, v)) else Get(target, v))
    ensures FactBelow(result, target) && FactBelow(result, fact)
  {
    forall v ensures Below(Get(result, v), Get(target, v)) && Below(Get(result, v), Get(fact, v)) {
      MeetIsGreatestLowerBound(Get(target, v), Get(fact, v), NAC);
    }
  }

  // ---------------------------------------------------------------- evaluation

  /** Division or remainder by a constant zero is UNDEF, whatever the first operand is. */
  lemma EvaluateDivisionByZero(op: BinaryOp, x: Var, y: Var, fact: Fact)
    requires IsDivOrRem(op) && EvaluateVar(y, fact) == Const(0)
    ensures Evaluate(BinaryExp(op, x, y), fact) == Undef
  {
  }

  /** Constant operands fold to the Java result of the operator. */
  lemma EvaluateConstantOperands(op: BinaryOp, x: Var, y: Var, fact: Fact)
    requires EvaluateVar(x, fact).Const? && EvaluateVar(y, fact).Const?
    requires !(IsDivOrRem(op) && EvaluateVar(y, fact) == Const(0))
    ensures Evaluate(BinaryExp(op, x, y), fact) ==
      Const(EvaluateOp(op, EvaluateVar(x, fact).c, EvaluateVar(y, fact).c))
  {
  }

  /** Otherwise a NAC operand gives NAC and anything else gives UNDEF. */
  lemma EvaluateNonConstantOperands(op: BinaryOp, x: Var, y: Var, fact: Fact)
    requires !(EvaluateVar(x, fact).Const? && EvaluateVar(y, fact).Const?)
    requires !(IsDivOrRem(op) && EvaluateVar(y, fact) == Const(0))
    ensures Evaluate(BinaryExp(op, x, y), fact) ==
      if EvaluateVar(x, fact) == NAC || EvaluateVar(y, fact) == NAC then NAC else Undef
  {
  }

  /** A variable that cannot hold an `int`, and every other kind of expression, is NAC. */
  lemma EvaluateUntracked(e: Exp, fact: Fact)
    requires (e.VarExp? && !CanHoldInt(e.v)) || !(e.IntLiteral? || e.VarExp? || e.BinaryExp?)
    ensures Evaluate(e, fact) == NAC
  {
  }

  /** Comparisons evaluate to 1 or 0. */
  lemma ConditionsAreZeroOrOne(c: ConditionOp, i1: Int32, i2: Int32)
    ensures EvaluateOp(Condition(c), i1, i2) == 0 || EvaluateOp(Condition(c), i1, i2) == 1
  {
  }

  /** A concrete state: the `int` value of some variables. */
  type Env = map<Var, Int32>

  /** The Java value of an expression in a concrete state; `None` when it has no `int` value or throws. */
  function ConcreteValue(e: Exp, env: Env): Option<Int32>
  {
    match e
    case IntLiteral(i) => Some(i)
    case VarExp(v) => if v in env then Some(env[v]) else None
    case BinaryExp(op, x, y) =>
      if x in env && y in env && !(IsDivOrRem(op) && env[y] == 0) then
        Some(EvaluateOp(op, env[x], env[y]))
      else None
    case _ => None
  }

  /** `env` agrees with every constant the fact claims. */
  ghost predicate Agrees(env: Env, fact: Fact)
  {
    forall v :: v in fact && fact[v].Const? ==> v in env && env[v] == fact[v].c
  }

  /** Soundness of `evaluate`: a constant it reports is the value the expression really has. */
  lemma EvaluateSound(e: Exp, fact: Fact, env: Env)
    requires Agrees(env, fact)
    requires Evaluate(e, fact).Const?
    ensures ConcreteValue(e, env) == Some(Evaluate(e, fact).c)
  {
  }

  /**
   * Away from division and remainder, evaluation is monotone: lower facts give
   * lower values.
   */
  lemma EvaluateMonotone(e: Exp, f: Fact, g: Fact)
    requires FactBelow(f, g)
    requires e.BinaryExp? ==> !IsDivOrRem(e.op)
    ensures Below(Evaluate(e, f), Evaluate(e, g))
  {
    match e
    case VarExp(v) =>
      assert Below(Get(f, v), Get(g, v));
    case BinaryExp(op, x, y) =>
      assert Below(Get(f, x), Get(g, x)) && Below(Get(f, y), Get(g, y));
    case _ =>
  }

  /**
   * The division-by-zero rule makes evaluation non-monotone: with `x` NAC,
   * lowering `y` from UNDEF to CONST(0) raises `x / y` from NAC to UNDEF.
   */
  lemma EvaluateNotMonotoneAtDivision(x: Var, y: Var)
    requires CanHoldInt(x) && CanHoldInt(y) && x != y
    ensures var f := map[x := NAC, y := Const(0)];
            var g := map[x := NAC];
            FactBelow(f, g) &&
            Evaluate(BinaryExp(Arithmetic(Div), x, y), f) == Undef &&
            Evaluate(BinaryExp(Arithmetic(Div), x, y), g) == NAC
  {
    var f: Fact := map[x := NAC, y := Const(0)];
    var g: Fact := map[x := NAC];
    assert Get(f, y) == Const(0) && Get(g, y) == Undef;
  }

  // ---------------------------------------------------------------- transfer

  /**
   * What `transferNode` computes, variable by variable: a definition of `lhs`
   * takes every other variable from IN when IN binds it and keeps OUT's value
   * otherwise; `lhs` gets the right-hand side's value if it can hold an `int`
   * and keeps OUT's value if not. Any other statement copies IN.
   */
  lemma TransferResultPointwise(s: Stmt, fin: Fact, fout: Fact, v: Var)
    ensures DefinedVar(s).None? ==> TransferResult(s, fin, fout) == fin
    ensures DefinedVar(s).Some? && v != DefinedVar(s).value ==>
      Get(TransferResult(s, fin, fout), v) == if v in fin then Get(fin, v) else Get(fout, v)
    ensures DefinedVar(s).Some? && v == DefinedVar(s).value ==>
      Get(TransferResult(s, fin, fout), v) ==
        if CanHoldInt(v) then Evaluate(RValue(s), fin) else Get(fout, v)
  {
  }

  /** Transferring twice from the same IN reports no change the second time. */
  lemma TransferIdempotent(s: Stmt, fin: Fact, fout: Fact)
    ensures TransferResult(s, fin, TransferResult(s, fin, fout)) == TransferResult(s, fin, fout)
  {
    var once := TransferResult(s, fin, fout);
    var twice := TransferResult(s, fin, once);
    forall v ensures Get(twice, v) == Get(once, v) {
      TransferResultPointwise(s, fin, fout, v);
      TransferResultPointwise(s, fin, once, v);
    }
    FactExtensionality(twice, once);
  }
}
