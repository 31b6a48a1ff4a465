/** The filter-rule record as the mail server's filter API returns it: a dict
    with `name`, `active`, `filterTests` and `filterActions`, whose tests and
    actions are grouped by category key (`headerTest`, `actionKeep`, ...). A
    category holds one dict, or a list of dicts when it has several entries;
    every leaf dict maps field names to strings. */
module Records {
  import opened Outcome
  import opened PySort

  /** A leaf test or action dict: every value is a string, `index` included. */
  type Entry = map<string, string>

  /** Python `e.get(k)`: None when the key is absent. */
  function Get(e: Entry, k: string): Option<string>
  {
    if k in e then Some(e[k]) else None
  }

  /** The sort key of a test or action: `e.get('index')`, a string compared as
      text, not as a number. */
  function IndexKey(e: Entry): Key
  {
    Get(e, "index")
  }

  /** A test dict. The serializer writes a `test` field into it, so it is an
      object shared with the caller, not a value. */
  class Dict {
    var fields: Entry

    constructor (fields: Entry)
      ensures this.fields == fields
    {
      this.fields := fields;
    }
  }

  /** What a category key holds: a bare string (as `condition` does), one dict,
      or a list of dicts. */
  datatype Field<D> = Text(s: string) | One(d: D) | Many(ds: seq<D>)

  /** One filter rule. `filterActions` is the action dict as the sequence of its
      (key, value) pairs in the dict's own iteration order, which Python 2 does
      not fix; the serializer only iterates over it. */
  datatype Rule = Rule(
    name: string,
    active: string,
    filterTests: map<string, Field<Dict>>,
    filterActions: seq<(string, Field<Entry>)>)
}
