/** The browser's `localStorage` holding JSON text. The JSON encoding is the
    identity: an entry holds either the empty string, a value that
    `JSON.stringify` produced, or text `JSON.parse` rejects. */
module Storage {

  datatype Entry<T> = Blank | Json(value: T) | Malformed

  type Store<T> = map<string, Entry<T>>

  /** What a read sees for a key: nothing saved (no entry, or the empty
      string), a parsed value, or a parse failure. */
  datatype Loaded<T> = NotSaved | Parsed(value: T) | ParseError

  function Load<T>(store: Store<T>, key: string): (r: Loaded<T>)
    ensures r.Parsed? <==> key in store && store[key].Json?
    ensures r.Parsed? ==> r.value == store[key].value
    ensures r.ParseError? <==> key in store && store[key].Malformed?
  {
    if key !in store then NotSaved
    else match store[key]
      case Blank => NotSaved
      case Json(v) => Parsed(v)
      case Malformed => ParseError
  }

  /** Writing the JSON text of `value` under `key`. */
  function Save<T>(store: Store<T>, key: string, value: T): (r: Store<T>)
    ensures Load(r, key) == Parsed(value)
    ensures forall k :: k != key ==> Load(r, k) == Load(store, k)
  {
    store[key := Json(value)]
  }
}
