/** The device key/value store (react-native-sensitive-info) as a map from locator to text. */
module SecretStores {
  import opened JsValues

  class SecretStore {
    var entries: map<string, string>

    constructor (initial: map<string, string>)
      ensures entries == initial
    {
      entries := initial;
    }

    /** `SInfo.getItem(key)`: the stored text, `undefined` when nothing is stored. */
    method GetItem(key: string) returns (v: Option<string>)
      ensures v == Lookup(entries, key)
    {
      v := Lookup(entries, key);
    }

    /** `SInfo.setItem(key, value)`: stores `value`, replacing whatever was there. */
    method SetItem(key: string, value: string)
      modifies this
      ensures entries == old(entries)[key := value]
    {
      entries := entries[key := value];
    }
  }
}
