/** The value tree that both serializers share (value.go). */
module Values {
  import opened Common

  /** Go's `int` and `int64` cases are one constructor; `Opaque` is any Go value outside the contract. */
  datatype Value =
    | Nil
    | Bool(b: bool)
    | Int(n: Int64)
    | Str(s: Bytes)
    | Sym(name: Bytes)
    | Arr(items: seq<Value>)
    | Dict(entries: seq<Entry>)
    | Opaque

  datatype Entry = Entry(key: Bytes, value: Value)

  predicate Supported(v: Value)
    decreases v
  {
    match v
    case Opaque => false
    case Arr(items) => forall i :: 0 <= i < |items| ==> Supported(items[i])
    case Dict(entries) => forall i :: 0 <= i < |entries| ==> Supported(entries[i].value)
    case _ => true
  }

  predicate AllSupported(items: seq<Value>) {
    forall i :: 0 <= i < |items| ==> Supported(items[i])
  }

  predicate EntriesSupported(entries: seq<Entry>) {
    forall i :: 0 <= i < |entries| ==> Supported(entries[i].value)
  }

  /** Hash.Get: the value of the first entry under `key`. */
  method Get(h: seq<Entry>, key: Bytes) returns (r: Option<Value>)
    ensures r.None? <==> forall i :: 0 <= i < |h| ==> h[i].key != key
    ensures r.Some? ==>
      exists i :: 0 <= i < |h| && h[i] == Entry(key, r.value) && forall j :: 0 <= j < i ==> h[j].key != key
  {
    for i := 0 to |h|
      invariant forall j :: 0 <= j < i ==> h[j].key != key
    {
      if h[i].key == key {
        return Some(h[i].value);
      }
    }
    return None;
  }
}
