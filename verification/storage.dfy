/**
 Per-hostname persistence of the settings text (`saveSettings`) and the choice
 between saved and default settings (`getSavedOrDefaultSettings`). The host's
 asynchronous store is a map from hostname to text; its error flag
 (`chrome.runtime.lastError`) is a parameter.
 */
module Storage {
  import opened Wrappers
  import opened Codec

  type Store = map<string, string>

  /** `items[hostname]`, `None` standing for `undefined`. */
  function Lookup(store: Store, hostname: string): (r: Option<string>)
    ensures r.Some? <==> hostname in store
    ensures r.Some? ==> r.value == store[hostname]
  {
    if hostname in store then Some(store[hostname]) else None
  }

  /**
   The settings handed to the load callback: the defaults when the read failed
   or nothing is stored, otherwise the stored text decoded as it is.
   */
  function SavedOrDefault(lastError: bool, stored: Option<string>): (r: Settings)
    ensures lastError || stored.None? ==> r == Defaults
    ensures !lastError && stored.Some? ==> r == Decode(stored.value)
  {
    if lastError then Defaults
    else match stored
      case None => Defaults
      case Some(text) => Decode(text)
  }

  /**
   `saveSettings`: the hostname's entry becomes the encoded settings, every
   other entry stays, and a later error-free load returns the same settings.
   */
  function SaveSettings(store: Store, hostname: string, s: Settings): (r: Store)
    ensures r.Keys == store.Keys + {hostname}
    ensures r[hostname] == Encode(s)
    ensures forall h :: h in store && h != hostname ==> h in r && r[h] == store[h]
    ensures SavedOrDefault(false, Lookup(r, hostname)) == s
  {
    DecodeEncode(s);
    store[hostname := Encode(s)]
  }

  /** Saving for one host does not change what another host loads. */
  lemma SaveIsolatesHosts(store: Store, hostname: string, other: string, s: Settings, lastError: bool)
    requires other != hostname
    ensures SavedOrDefault(lastError, Lookup(SaveSettings(store, hostname, s), other))
         == SavedOrDefault(lastError, Lookup(store, other))
  {
  }
}
