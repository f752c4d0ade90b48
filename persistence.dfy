/** The browser's localStorage as the application uses it: one string-to-string store shared by
    every tab of the profile, and JSON as the text form of a record (App.tsx:18-21, App.tsx:47). */
module Persistence {
  import opened Wrappers
  import opened Stats

  /** JSON.stringify and JSON.parse restricted to the record; a parse that throws is None. */
  datatype Codec = Codec(serialize: StudentStats -> string, parse: string -> Option<StudentStats>)

  /** What the application relies on of JSON: parsing the text of a record gives the record
      back, and empty text does not parse (JSON.parse("") throws). */
  ghost predicate Lawful(c: Codec) {
    && (forall r :: c.parse(c.serialize(r)) == Some(r))
    && c.parse("") == None
  }

  /** The text of a record is never empty, so a stored record always passes the
      truthiness tests of App.tsx:19 and App.tsx:37. */
  lemma SerializedNonEmpty(c: Codec, r: StudentStats)
    requires Lawful(c)
    ensures c.serialize(r) != ""
  {
  }

  /** getItem on a plain map: None where the browser returns null. */
  function Lookup(items: map<string, string>, key: string): (v: Option<string>)
    ensures v.Some? <==> key in items
    ensures v.Some? ==> items[key] == v.value
  {
    if key in items then Some(items[key]) else None
  }

  /** The storage area of the browser profile. */
  class Storage {
    var items: map<string, string>

    constructor (items: map<string, string>)
      ensures this.items == items
    {
      this.items := items;
    }

    method GetItem(key: string) returns (v: Option<string>)
      ensures v.Some? <==> key in items
      ensures v.Some? ==> v.value == items[key]
    {
      v := Lookup(items, key);
    }

    /** Overwrites one key; every other key keeps its value. */
    method SetItem(key: string, value: string)
      modifies this
      ensures items == old(items)[key := value]
    {
      items := items[key := value];
    }
  }
}
