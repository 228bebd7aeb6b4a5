/**
 * What the pointer analyses are given: the bodies of the program's methods,
 * the entry method, and the framework's resolution hooks (heap model, field
 * resolution, callee resolution, return types), taken as uninterpreted
 * functions. The per-variable statement indices (`getStoreFields`,
 * `getLoadFields`, `getStoreArrays`, `getLoadArrays`, `getInvokes`) are
 * derived from the body of the method that declares the variable.
 */
module PtaInput {
  import opened Wrappers
  import opened IR
  import opened Collections

  datatype Program = Program(
    bodies: map<JMethod, MethodBody>,
    main: JMethod,
    /** `heapModel.getObj(stmt)`: the abstract object an allocation statement creates. */
    allocObj: Stmt -> Obj,
    /** `FieldRef.resolve()`. */
    resolveField: FieldRef -> JField,
    /** `MethodRef.resolve()`. */
    resolveMethod: MethodRef -> JMethod,
    /** `CallGraphs.resolveCallee(type, callSite)`; the receiver type is `None` for a static call. */
    resolveCallee: (Option<Type>, Invoke) -> Option<JMethod>,
    /** `JMethod.getReturnType()`. */
    returnType: JMethod -> Type)

  /** The IR of `m`; a method the program has no body for has no parameters, no `this` and no statements. */
  function Body(prog: Program, m: JMethod): MethodBody
  {
    if m in prog.bodies then prog.bodies[m] else MethodBody([], None, [], [])
  }

  function Stmts(prog: Program, m: JMethod): seq<Stmt>
  {
    Body(prog, m).stmts
  }

  /** `x.f = y` with base `x`: the field reference and `y`. */
  function StoreFieldOn(x: Var, s: Stmt): Option<(FieldRef, Var)>
  {
    match s.kind
    case StoreField(Some(b), f, y) => if b == x then Some((f, y)) else None
    case _ => None
  }

  /** `y = x.f` with base `x`: the field reference and `y`. */
  function LoadFieldOn(x: Var, s: Stmt): Option<(FieldRef, Var)>
  {
    match s.kind
    case Assign(y, FieldAccess(Some(b), f)) => if b == x then Some((f, y)) else None
    case _ => None
  }

  /** `x[i] = y` with base `x`: `y`. */
  function StoreArrayOn(x: Var, s: Stmt): Option<Var>
  {
    match s.kind
    case StoreArray(b, _, y) => if b == x then Some(y) else None
    case _ => None
  }

  /** `y = x[i]` with base `x`: `y`. */
  function LoadArrayOn(x: Var, s: Stmt): Option<Var>
  {
    match s.kind
    case Assign(y, ArrayAccess(b, _)) => if b == x then Some(y) else None
    case _ => None
  }

  /** A call whose receiver is `x`. */
  function InvokeOn(x: Var, s: Stmt): Option<Invoke>
  {
    match s.kind
    case Call(i) => if i.base == Some(x) then Some(i) else None
    case _ => None
  }

  /** `x.getStoreFields()`, `x.getLoadFields()`, `x.getStoreArrays()`, `x.getLoadArrays()`, `x.getInvokes()`. */
  function StoreFieldsOf(prog: Program, x: Var): seq<(FieldRef, Var)>
  {
    FilterMap(Stmts(prog, x.owner), s => StoreFieldOn(x, s))
  }

  function LoadFieldsOf(prog: Program, x: Var): seq<(FieldRef, Var)>
  {
    FilterMap(Stmts(prog, x.owner), s => LoadFieldOn(x, s))
  }

  function StoreArraysOf(prog: Program, x: Var): seq<Var>
  {
    FilterMap(Stmts(prog, x.owner), s => StoreArrayOn(x, s))
  }

  function LoadArraysOf(prog: Program, x: Var): seq<Var>
  {
    FilterMap(Stmts(prog, x.owner), s => LoadArrayOn(x, s))
  }

  function InvokesOf(prog: Program, x: Var): seq<Invoke>
  {
    FilterMap(Stmts(prog, x.owner), s => InvokeOn(x, s))
  }

  /** The number of argument-to-parameter edges a call wires: one per parameter that has an argument. */
  function ArgCount(prog: Program, i: Invoke, callee: JMethod): nat
  {
    if |Body(prog, callee).params| <= |i.args| then |Body(prog, callee).params| else |i.args|
  }
}
