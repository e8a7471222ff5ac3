/** The typed callback an automation node invokes, and the context it is invoked with.

    The callback comes from a library that is not part of this model; here it is what the
    automation engine relies on: the context's type is checked against a declared set of
    accepted types, and only then is the wrapped operation invoked, which may fail. */
module Callbacks {

  /** The runtime type of a context object; the engine only tests membership. */
  datatype ContextType = EndpointsRouter | OtherType(name: string)

  /** The context every operation is invoked with. Its `log` stands for the observable effect
      of operations on it: each invoked operation appends its id. */
  class Context {
    const kind: ContextType
    var log: seq<nat>

    constructor (kind: ContextType)
      ensures this.kind == kind && log == []
    {
      this.kind := kind;
      log := [];
    }
  }

  /** A unit of work over a context: `Op` records itself in the context's log and then fails
      or not; `NoOp` is the `lambda _: ()` of the group node built by `supports`. */
  datatype Operation = Op(id: nat, fails: bool) | NoOp

  datatype Error = TypeMismatch | OperationFailure(id: nat)

  datatype Outcome = Pass | Fail(error: Error)

  datatype Callback = Callback(operation: Operation, types: set<ContextType>) {

    /** What a call with a context of type `kind` returns. */
    function Invoke(kind: ContextType): (o: Outcome)
      ensures kind !in types ==> o == Fail(TypeMismatch)
      ensures kind in types ==> (o.Pass? <==> !(operation.Op? && operation.fails))
      ensures o.Fail? && o.error.OperationFailure? ==> operation == Op(o.error.id, true)
    {
      if kind !in types then Fail(TypeMismatch)
      else match operation
        case NoOp => Pass
        case Op(id, fails) => if fails then Fail(OperationFailure(id)) else Pass
    }

    /** What a call with a context of type `kind` appends to the context's log. */
    function Effect(kind: ContextType): (e: seq<nat>)
      ensures |e| <= 1
      ensures e != [] <==> kind in types && operation.Op?
      ensures e != [] ==> e[0] == operation.id
    {
      if kind in types && operation.Op? then [operation.id] else []
    }

    /** `callback.call(context)`: the type check first, then the operation. */
    method Call(ctx: Context) returns (o: Outcome)
      modifies ctx
      ensures o == Invoke(ctx.kind)
      ensures ctx.log == old(ctx.log) + Effect(ctx.kind)
    {
      if ctx.kind !in types {
        return Fail(TypeMismatch);
      }
      match operation
      case NoOp =>
        o := Pass;
      case Op(id, fails) =>
        ctx.log := ctx.log + [id];
        o := if fails then Fail(OperationFailure(id)) else Pass;
    }
  }

  /** `create_callback`: the callback of a node accepts exactly the router type. */
  function CreateCallback(operation: Operation): (c: Callback)
    ensures c.operation == operation
    ensures forall kind :: c.Invoke(kind).Fail? <==> kind != EndpointsRouter || (operation.Op? && operation.fails)
    ensures forall kind :: c.Invoke(kind) != Fail(TypeMismatch) <==> kind == EndpointsRouter
    ensures forall kind :: kind != EndpointsRouter ==> c.Effect(kind) == []
    ensures c.Effect(EndpointsRouter) == if operation.Op? then [operation.id] else []
  {
    Callback(operation, {EndpointsRouter})
  }
}
