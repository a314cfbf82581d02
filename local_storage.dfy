/** The browser's `localStorage` as the client uses it: a key-value store.
    Entries the client writes with `JSON.stringify` are kept as the record
    they encode rather than as JSON text. */
module LocalStorage {
  import opened Wrappers

  datatype Item =
    | Text(text: string)                    // a token, stored as is
    | User(username: string)                // `JSON.stringify({ username })`
    | Preferences(flags: map<string, bool>) // `JSON.stringify(preferences)`

  /** The session keys written by login. */
  const AccessToken := "access_token"
  const RefreshToken := "refresh_token"
  const UserKey := "user"
  const PreferencesKey := "userPreferences"

  /** `localStorage.getItem(key)`, `null` being `None`. */
  function Get(items: map<string, Item>, key: string): (r: Option<Item>)
    ensures r.Some? <==> key in items
    ensures r.Some? ==> r.value == items[key]
  {
    if key in items then Some(items[key]) else None
  }

  /** JavaScript truthiness of what `getItem` returns: `null` and the empty
      string are falsy; JSON text is never empty. */
  predicate Truthy(r: Option<Item>)
  {
    r.Some? && !(r.value.Text? && r.value.text == "")
  }

  class Storage {
    var items: map<string, Item>

    constructor (initial: map<string, Item>)
      ensures items == initial
    {
      items := initial;
    }

    /** `localStorage.setItem` */
    method SetItem(key: string, value: Item)
      modifies this
      ensures items == old(items)[key := value]
    {
      items := items[key := value];
    }

    /** `localStorage.removeItem` */
    method RemoveItem(key: string)
      modifies this
      ensures items == old(items) - {key}
    {
      items := items - {key};
    }
  }
}
