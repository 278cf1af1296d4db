/** The browser's local storage as the mod loader uses it: string keys to
    string values, read with `getItem` and written with `setItem`. */
module LocalStorage {
  import opened Wrappers

  class Storage {
    var items: map<string, string>

    constructor(items: map<string, string>)
      ensures this.items == items
    {
      this.items := items;
    }

    /** `getItem`: `null` (here `None`) for a key never set. */
    function GetItem(key: string): (r: Option<string>)
      reads this
      ensures r.Some? <==> key in items
    {
      if key in items then Some(items[key]) else None
    }

    /** `setItem` */
    method SetItem(key: string, value: string)
      modifies this
      ensures items == old(items)[key := value]
    {
      items := items[key := value];
    }
  }
}
