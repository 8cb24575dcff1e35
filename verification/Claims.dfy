/** Wiping parsed claims before they are dropped. */
module Claims {
  import opened Utf8
  import opened JsonGrammar

  /** What is left of a value: strings emptied, arrays cleared item by item, objects emptied. */
  function Cleared(v: Value): Value {
    match v
    case String(_) => String([])
    case Array(items) =>
      Array(seq(|items|, i requires 0 <= i < |items| => Cleared(items[i])))
    case Object(_) => Object(map[])
    case _ => v
  }

  /** Values that differ only in what strings and objects hold. */
  predicate SameShape(a: Value, b: Value) {
    match (a, b)
    case (String(_), String(_)) => true
    case (Object(_), Object(_)) => true
    case (Array(p), Array(q)) =>
      |p| == |q| && forall i :: 0 <= i < |p| ==> SameShape(p[i], q[i])
    case _ => a == b
  }

  /** Clearing keeps nothing a string or an object held: two values are cleared to the same one
      exactly when they differ in nothing else. */
  lemma {:induction false} ClearedForgets(a: Value, b: Value)
    ensures Cleared(a) == Cleared(b) <==> SameShape(a, b)
  {
    if a.Array? && b.Array? {
      var p, q := a.items, b.items;
      var c, d := Cleared(a).items, Cleared(b).items;
      if |p| == |q| {
        forall i | 0 <= i < |p| ensures c[i] == d[i] <==> SameShape(p[i], q[i]) {
          ClearedForgets(p[i], q[i]);
        }
        assert c == d <==> forall i :: 0 <= i < |p| ==> c[i] == d[i];
      }
    }
  }

  /** Clear a value its owner can rewrite: a string is emptied, an array cleared item by item, an
      object's members taken out, each cleared, and none put back. */
  method Clear(v: Value) returns (r: Value)
    ensures r == Cleared(v)
    decreases v, 1
  {
    match v
    case String(_) => r := String([]);
    case Array(items) =>
      var cells := new Value[|items|](i requires 0 <= i < |items| => items[i]);
      assert cells[..] == items;
      ClearItems(cells, v);
      r := Array(cells[..]);
    case Object(members) =>
      ClearMembers(members, v);
      r := Object(map[]);
    case _ => r := v;
  }

  /** The items of an array, cleared in place one after another. */
  method ClearItems(items: array<Value>, ghost whole: Value)
    requires whole == Array(items[..])
    modifies items
    ensures items[..] == Cleared(old(Array(items[..]))).items
    decreases whole, 0
  {
    ghost var was := items[..];
    for i := 0 to items.Length
      invariant forall k :: 0 <= k < i ==> items[k] == Cleared(was[k])
      invariant forall k :: i <= k < items.Length ==> items[k] == was[k]
    {
      assert was[i] < whole;
      items[i] := Clear(items[i]);
    }
  }

  /** The members of an object, taken out and cleared before they are dropped. */
  method ClearMembers(members: map<Bytes, Value>, ghost whole: Value)
    requires whole == Object(members)
    decreases whole, 0
  {
    var left := members;
    while left != map[]
      invariant forall k <- left :: k in members && left[k] == members[k]
      decreases |left|
    {
      var key :| key in left;
      var dropped := Clear(left[key]);
      assert left.Keys - {key} < left.Keys;
      left := left - {key};
    }
  }
}
