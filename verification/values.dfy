/** The JavaScript values the store holds, reduced to what its logic inspects:
    `typeof`, truthiness, and the own properties of plain objects. */
module Values {

  /** A JavaScript value. Numbers are integers; a function is known by its identity. */
  datatype Value =
    | Undef
    | Null
    | Bool(b: bool)
    | Num(n: int)
    | Str(s: string)
    | Obj(fields: map<string, Value>)
    | Fn(id: nat)

  /** `typeof v === 'object'`: true of plain objects and of `null`. */
  predicate IsObjectTyped(v: Value) {
    v.Null? || v.Obj?
  }

  /** JavaScript truthiness: `undefined`, `null`, `false`, `0` and `""` are falsy. */
  predicate Truthy(v: Value) {
    match v
    case Undef => false
    case Null => false
    case Bool(b) => b
    case Num(n) => n != 0
    case Str(s) => s != ""
    case Obj(_) => true
    case Fn(_) => true
  }

  /** The own properties `Object.assign` copies out of a source; `null` contributes none. */
  function Own(v: Value): map<string, Value> {
    if v.Obj? then v.fields else map[]
  }

  /** Property read `v[k]`: the property of an object, `undefined` when absent or when
      `v` is not an object. */
  function Prop(v: Value, k: string): Value {
    if v.Obj? && k in v.fields then v.fields[k] else Undef
  }

  /** What calling a function value does: `produce(id, base)` is the value immer's
      `produce(base, fn)` returns, `call(id)` is the value of `fn()`. */
  datatype Runtime = Runtime(produce: (nat, Value) -> Value, call: nat -> Value)
}
