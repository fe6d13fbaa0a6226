/** app/lib/keys.js: decides whether a key typed by the user is their own
    key or an administrator passphrase that unlocks the server's key. */
module Keys {
  import opened Js

  /** The process environment the application reads; any entry may be unset. */
  datatype Env = Env(
    adminUser: Option<string>,         // ADMIN_USER: passphrase for the Google field
    adminPassword: Option<string>,     // ADMIN_PASSWORD: passphrase for the Gemini field
    googleMapsApiKey: Option<string>,  // GOOGLE_MAPS_API_KEY
    mapsApiKey: Option<string>,        // Maps_API_KEY, the older name of the same key
    geminiApiKey: Option<string>)      // GEMINI_API_KEY

  /** The server's Maps key: GOOGLE_MAPS_API_KEY, or Maps_API_KEY when the
      first is unset or empty. */
  function ServerGoogleKey(env: Env): (k: Option<string>)
    ensures Truthy(k) <==> Truthy(env.googleMapsApiKey) || Truthy(env.mapsApiKey)
    ensures Truthy(env.googleMapsApiKey) ==> k == env.googleMapsApiKey
    ensures !Truthy(env.googleMapsApiKey) ==> k == env.mapsApiKey
  {
    Or(env.googleMapsApiKey, env.mapsApiKey)
  }

  /** `getValidKey(inputKey, type)`. The passphrase comparison is JavaScript's
      `===`, under which an unset passphrase equals an absent input. */
  function GetValidKey(inputKey: Option<string>, keyType: string, env: Env): (k: Option<string>)
    // only the three documented outcomes exist
    ensures k == inputKey || k == ServerGoogleKey(env) || k == env.geminiApiKey
    // a key that is neither passphrase is always handed back unchanged
    ensures inputKey != env.adminUser && inputKey != env.adminPassword ==> k == inputKey
    // a passphrase unlocks a server key only in its own field
    ensures keyType == "google" && inputKey == env.adminUser ==> k == ServerGoogleKey(env)
    ensures keyType == "gemini" && inputKey == env.adminPassword ==> k == env.geminiApiKey
    ensures keyType != "google" && keyType != "gemini" ==> k == inputKey
  {
    if keyType == "google" && inputKey == env.adminUser then
      ServerGoogleKey(env)
    else if keyType == "gemini" && inputKey == env.adminPassword then
      env.geminiApiKey
    else
      inputKey
  }

  /** The Google passphrase typed into the Gemini field is not a Gemini
      passphrase: it is passed on as if it were the user's own key. */
  lemma GooglePassphraseInGeminiField(env: Env)
    requires env.adminUser != env.adminPassword
    ensures GetValidKey(env.adminUser, "gemini", env) == env.adminUser
  {
  }

  /** Likewise the Gemini passphrase typed into the Google field. */
  lemma GeminiPassphraseInGoogleField(env: Env)
    requires env.adminUser != env.adminPassword
    ensures GetValidKey(env.adminPassword, "google", env) == env.adminPassword
  {
  }

  /** When ADMIN_USER is unset, a request that sends no key at all receives the
      server's Maps key: `undefined === undefined` holds. */
  lemma UnsetPassphraseUnlocksServerKey(env: Env)
    requires env.adminUser == None
    ensures GetValidKey(None, "google", env) == ServerGoogleKey(env)
  {
  }

  /** The resolver with a configured-passphrase guard: substitution happens
      only for a non-empty input equal to a non-empty passphrase. */
  function GetValidKeyGuarded(inputKey: Option<string>, keyType: string, env: Env): (k: Option<string>)
    ensures !Truthy(inputKey) ==> k == inputKey
    ensures Truthy(inputKey) ==> k == GetValidKey(inputKey, keyType, env)
  {
    if !Truthy(inputKey) then inputKey else GetValidKey(inputKey, keyType, env)
  }

  /** With the guard, a caller that sends no key never obtains a server key,
      whatever the configuration. */
  lemma GuardedNeverUnlocksForMissingKey(keyType: string, env: Env)
    ensures GetValidKeyGuarded(None, keyType, env) == None
    ensures GetValidKeyGuarded(Some(""), keyType, env) == Some("")
  {
  }
}
