/** The Numba types the modelled code branches on. */
module NumbaTypes {

  datatype Ty =
    | NoneTy
    | Boolean
    | Integer(bits: nat, signed: bool)
    | Float(bits: nat)
    | Complex(bits: nat)
    | EnumMember(enumType: int, isInt: bool)
    | NumpyDtype(name: string)      // a record, datetime, timedelta or string type, by its dtype
    | Literal(base: Ty, value: int)
    | Array(dtype: Ty, ndim: nat, layout: char)
    | CPointer(pointee: Ty)
    | UniTuple(dtype: Ty, count: nat)
    | Tuple(types: seq<Ty>)
    | Record(size: nat)             // a record, where only its size matters
    | Omitted(default: int)
    | Managed(id: nat)              // an extension type carrying one NRT MemInfo
    | Opaque(id: nat)               // any other type
  {
    /** isinstance(t, BaseTuple) */
    predicate IsTuple() {
      UniTuple? || Tuple?
    }

    /** Element types of a tuple type, in order. */
    function Elements(): (es: seq<Ty>)
      requires IsTuple()
      ensures forall i :: 0 <= i < |es| ==> es[i] < this
    {
      if UniTuple? then seq(count, _ => dtype) else types
    }
  }

  type Signature = seq<Ty>

  /** MLIRDispatcher._can_reuse_overload */
  predicate CanReuse(sig: Ty, runtime: Ty)
    decreases sig
  {
    if sig == runtime then true
    else if sig.Literal? || runtime.Literal? then false
    else if sig.CPointer? && runtime.Integer? then true
    else if sig.Integer? && runtime.Integer? then true
    else if sig.Array? && runtime.Array? then sig.dtype == runtime.dtype && sig.ndim == runtime.ndim
    else if sig.IsTuple() && runtime.IsTuple() then
      && |sig.Elements()| == |runtime.Elements()|
      && forall i :: 0 <= i < |sig.Elements()| ==> CanReuse(sig.Elements()[i], runtime.Elements()[i])
    else false
  }

  predicate CanReuseAll(sig: Signature, runtime: Signature) {
    && |sig| == |runtime|
    && forall i :: 0 <= i < |sig| ==> CanReuse(sig[i], runtime[i])
  }
}
