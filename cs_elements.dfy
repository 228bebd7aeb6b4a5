/**
 * Context-sensitive elements of the context-sensitive pointer analyses: a
 * context is a list of context elements (call sites, allocation sites or
 * types, depending on the context selector), and each variable, object,
 * method and call site is paired with the context it is analysed in.
 *
 * `CSManager` only memoises these pairs; here they are plain values. The
 * context selector is a set of uninterpreted hooks.
 */
module CSElements {
  import opened IR

  datatype ContextElement = CallSiteElement(callSite: Invoke) | ObjElement(obj: Obj) | TypeElement(ty: Type)

  datatype Context = Context(elements: seq<ContextElement>)

  datatype CSObj = CSObj(heapContext: Context, obj: Obj)

  datatype CSMethod = CSMethod(context: Context, jmethod: JMethod)

  datatype CSCallSite = CSCallSite(context: Context, callSite: Invoke)

  datatype CSPointer =
    | CSVar(context: Context, v: Var)
    | StaticField(field: JField)
    | InstanceField(base: CSObj, field: JField)
    | ArrayIndex(array: CSObj)

  /** A context-sensitive call-graph edge: the call kind, the CS call site, the CS callee. */
  datatype CSCallEdge = CSCallEdge(kind: CallKind, callSite: CSCallSite, callee: CSMethod)

  /** `ContextSelector`. */
  datatype Selector = Selector(
    /** `getEmptyContext()`. */
    emptyContext: Context,
    /** `selectHeapContext(csMethod, obj)`. */
    selectHeapContext: (CSMethod, Obj) -> Context,
    /** `selectContext(callSite, callee)`, for a static call. */
    selectStaticContext: (CSCallSite, JMethod) -> Context,
    /** `selectContext(callSite, recv, callee)`, for an instance call. */
    selectContext: (CSCallSite, CSObj, JMethod) -> Context)

  /** The `CSMethod`s of context `c` whose method has a body. */
  function MethodsIn(bodies: set<JMethod>, c: Context): set<CSMethod>
  {
    set m | m in bodies :: CSMethod(c, m)
  }
}
