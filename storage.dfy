/** The browser's key/value store and the JSON text format, both foreign to the
    program and modelled abstractly. */
module Storage {
  import opened Wrappers
  import opened Movies

  /** What `localStorage.getItem(key)` does: return the stored string, return
      `null` for a missing key, or throw (storage disabled or denied). */
  datatype StoreRead = Item(value: string) | NoItem | ReadThrew

  /** The read of `key` from a store holding `items`. */
  function Lookup(items: map<string, string>, readable: bool, key: string): (r: StoreRead)
    ensures r.ReadThrew? <==> !readable
    ensures r.NoItem? <==> readable && key !in items
    ensures r.Item? ==> key in items && r.value == items[key]
  {
    if !readable then ReadThrew
    else if key in items then Item(items[key])
    else NoItem
  }

  /** The items after `setItem(key, value)`: updated when the write succeeds,
      untouched when it throws. */
  function Written(items: map<string, string>, writable: bool, key: string, value: string): (r: map<string, string>)
    ensures writable ==> key in r && r[key] == value
    ensures !writable ==> r == items
    ensures forall k :: k != key ==> (k in r <==> k in items)
    ensures forall k :: k != key && k in items ==> r[k] == items[k]
  {
    if writable then items[key := value] else items
  }

  /** The browser's local storage. `readable` and `writable` stand for the
      environment: when storage is denied reads throw, and when it is full or
      denied writes throw and store nothing. */
  class LocalStore {
    var items: map<string, string>
    var readable: bool
    var writable: bool

    constructor (items: map<string, string>, readable: bool, writable: bool)
      ensures this.items == items && this.readable == readable && this.writable == writable
    {
      this.items := items;
      this.readable := readable;
      this.writable := writable;
    }

    function GetItem(key: string): (r: StoreRead)
      reads this
      ensures r == Lookup(items, readable, key)
    {
      Lookup(items, readable, key)
    }

    method SetItem(key: string, value: string) returns (threw: bool)
      modifies this
      ensures threw == !writable
      ensures readable == old(readable) && writable == old(writable)
      ensures items == Written(old(items), old(writable), key, value)
    {
      threw := !writable;
      if !threw {
        items := items[key := value];
      }
    }
  }

  /** `JSON.stringify` and `JSON.parse` restricted to lists of movies: encoding
      always yields text, decoding may fail (malformed text, or text that is not
      a list of movie records). */
  datatype Codec = Codec(encode: seq<Movie> -> string, decode: string -> Option<seq<Movie>>)

  /** The JSON round trip for one list: its text is never empty (at least
      "[]") and parsing it gives the list back. `JSON.stringify` and
      `JSON.parse` promise this only for lists whose numbers are finite
      doubles, so it is a premise about the list at hand, not about every
      list. */
  predicate RoundTrips(c: Codec, xs: seq<Movie>)
  {
    c.encode(xs) != "" && c.decode(c.encode(xs)) == Some(xs)
  }
}
