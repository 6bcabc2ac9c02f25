// Parsed JSON, with the equality that Python's `==` gives it.
module JsonTree {

  datatype Json =
    | Null
    | Bool(b: bool)
    | Int(i: int)
    | Float(r: real)
    | Str(s: string)
    | Arr(items: seq<Json>)
    | Obj(fields: map<string, Json>)
  {
    // bool is a subclass of int, and int and float compare by value.
    predicate Number?() {
      Bool? || Int? || Float?
    }

    function Amount(): real
      requires Number?()
    {
      match this
      case Bool(b) => if b then 1.0 else 0.0
      case Int(i) => i as real
      case Float(r) => r
    }

    // dict.get with its default of None.
    function Get(key: string): Json
      requires Obj?
    {
      if key in fields then fields[key] else Null
    }
  }

  predicate PyEq(a: Json, b: Json) {
    if a.Number?() && b.Number?() then a.Amount() == b.Amount()
    else match (a, b)
      case (Null, Null) => true
      case (Str(x), Str(y)) => x == y
      case (Arr(x), Arr(y)) => |x| == |y| && forall i :: 0 <= i < |x| ==> PyEq(x[i], y[i])
      case (Obj(m), Obj(n)) => m.Keys == n.Keys && forall k | k in m :: PyEq(m[k], n[k])
      case _ => false
  }

  lemma {:induction false} PyEqReflexive(a: Json)
    ensures PyEq(a, a)
  {
    match a
    case Arr(items) => forall i | 0 <= i < |items| { PyEqReflexive(items[i]); }
    case Obj(fields) => forall k | k in fields { PyEqReflexive(fields[k]); }
    case _ =>
  }
}
