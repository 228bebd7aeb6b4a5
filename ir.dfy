/**
 * The part of the analysed program's intermediate representation that the
 * analyses look at: typed variables, the expression and statement forms they
 * distinguish, call sites, abstract heap objects and method bodies.
 *
 * Building this representation (parsing, control-flow graphs, the class
 * hierarchy) happens outside the analyses; here it is simply given.
 */
module IR {
  import opened Wrappers
  import opened JavaInt

  type ClassName = string

  /** A method subsignature such as `int foo(int,java.lang.Object)`. */
  type Subsignature = string

  datatype PrimitiveType = Byte | Short | Int | Char | Boolean | Long | Float | Double

  datatype Type = Primitive(prim: PrimitiveType) | Reference(className: ClassName) | NullType

  /** A method, identified by its declaring class and its subsignature. */
  datatype JMethod = JMethod(declaringClass: ClassName, subsig: Subsignature)

  /** A reference to a method as written at a call site, before resolution. */
  datatype MethodRef = MethodRef(declaringClass: ClassName, subsig: Subsignature)

  /** A reference to a field as written in a statement, before resolution. */
  datatype FieldRef = FieldRef(declaringClass: ClassName, name: string)

  /** A resolved field. */
  datatype JField = JField(declaringClass: ClassName, name: string)

  /** A local variable (or parameter, `this`, temporary) of a method. */
  datatype Var = Var(owner: JMethod, name: string, ty: Type)

  datatype ArithmeticOp = Add | Sub | Mul | Div | Rem
  datatype BitwiseOp = Or | And | Xor
  datatype ConditionOp = Eq | Ne | Lt | Gt | Le | Ge
  datatype ShiftOp = Shl | Shr | Ushr

  datatype BinaryOp =
    | Arithmetic(arith: ArithmeticOp)
    | BitwiseBin(bitwise: BitwiseOp)
    | Condition(cond: ConditionOp)
    | Shift(shift: ShiftOp)

  /** How a call site is dispatched (the `invokexxx` instruction it came from). */
  datatype CallKind = Static | Special | Virtual | Interface | Dynamic

  /** A call site: `result = base.ref(args)`. `id` tells equal-looking sites apart. */
  datatype Invoke = Invoke(
    id: nat,
    container: JMethod,
    kind: CallKind,
    ref: MethodRef,
    base: Option<Var>,
    args: seq<Var>,
    result: Option<Var>)

  /** The right-hand sides the analyses tell apart; operands of operators are variables. */
  datatype Exp =
    | IntLiteral(value: Int32)
    | VarExp(v: Var)
    | BinaryExp(op: BinaryOp, operand1: Var, operand2: Var)
    | NewExp(ty: Type)
    | CastExp(castValue: Var, castType: Type)
    | FieldAccess(fieldBase: Option<Var>, field: FieldRef)
    | ArrayAccess(arrayBase: Var, index: Var)
    | InvokeExp(call: Invoke)
    | OtherExp  // unary and instanceof expressions, array length, non-int literals

  datatype StmtKind =
    /** `lhs = rhs`: allocations, copies, literals, operators, casts, field and array loads. */
    | Assign(lhs: Var, rhs: Exp)
    /** `base.field = rvalue`, or `T.field = rvalue` when `base` is `None`. */
    | StoreField(storeBase: Option<Var>, storeField: FieldRef, rvalue: Var)
    /** `base[index] = rvalue`. */
    | StoreArray(arrayBase: Var, arrayIndex: Var, stored: Var)
    /** A call statement, `result = base.m(args)` or without a result. */
    | Call(invoke: Invoke)
    | If(cond: Exp)
    | Switch(scrutinee: Var)
    | Return(returned: Option<Var>)
    | Nop

  /** A statement with its index in its method and its source line (negative when synthetic). */
  datatype Stmt = Stmt(owner: JMethod, index: nat, line: int, kind: StmtKind)

  /** An abstract heap object: an allocation site, or a taint object created at a source call. */
  datatype Obj = Alloc(site: nat, ty: Type) | TaintObj(sourceCall: Invoke, taintType: Type)

  /** A method body: parameters, `this`, statements and the variables it returns. */
  datatype MethodBody = MethodBody(
    params: seq<Var>,
    thisVar: Option<Var>,
    stmts: seq<Stmt>,
    returnVars: seq<Var>)

  function ObjType(o: Obj): Type
  {
    match o
    case Alloc(_, t) => t
    case TaintObj(_, t) => t
  }

  /**
   * The variable a statement defines, if its left-hand side is a variable:
   * the `lhs` of an assignment or the result of a call.
   */
  function DefinedVar(s: Stmt): Option<Var>
  {
    match s.kind
    case Assign(lhs, _) => Some(lhs)
    case Call(invoke) => invoke.result
    case _ => None
  }

  /** The right-hand side of a definition statement. */
  function RValue(s: Stmt): Exp
  {
    match s.kind
    case Assign(_, rhs) => rhs
    case Call(invoke) => InvokeExp(invoke)
    case _ => OtherExp
  }

  predicate IsStore(s: Stmt)
  {
    s.kind.StoreField? || s.kind.StoreArray?
  }

  predicate IsCall(s: Stmt)
  {
    s.kind.Call?
  }
}
