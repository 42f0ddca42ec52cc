/** Where the command line finds its Azure application
    (`internal/config/config.go`): the client and tenant IDs, from the
    macOS Keychain first and the environment second. The Keychain lookups
    (the `security` command) and the environment are inputs. */
module Config {
  import opened Wrappers

  datatype Config = Config(clientID: string, tenantID: string)

  /** Which ID could not be found. */
  datatype ConfigError = ClientIDNotFound | TenantIDNotFound

  /** What `Load` reads: the operating system, the two Keychain lookups
      (an error, or the trimmed password text) and the two environment
      variables (an unset variable reads as ""). */
  datatype Sources = Sources(
    goos: string,
    keychainClientID: Result<string, string>,
    keychainTenantID: Result<string, string>,
    envClientID: string,
    envTenantID: string)

  /** A Keychain lookup counts only on macOS, only without error and only
      when it is not empty. */
  predicate KeychainHas(goos: string, lookup: Result<string, string>) {
    goos == "darwin" && lookup.Ok? && lookup.value != ""
  }

  /** The ID a source pair yields: the Keychain's, else the environment's. */
  function Pick(goos: string, keychain: Result<string, string>, env: string): string {
    if KeychainHas(goos, keychain) then keychain.value else env
  }

  /** What `Load` gives for `src`. */
  function Configured(src: Sources): Result<Config, ConfigError> {
    var clientID := Pick(src.goos, src.keychainClientID, src.envClientID);
    var tenantID := Pick(src.goos, src.keychainTenantID, src.envTenantID);
    if clientID == "" then Err(ClientIDNotFound)
    else if tenantID == "" then Err(TenantIDNotFound)
    else Ok(Config(clientID, tenantID))
  }

  /** `Load`: fills the IDs from the Keychain on macOS, then fills the
      ones still empty from the environment, then checks the client ID
      before the tenant ID. */
  method Load(src: Sources) returns (r: Result<Config, ConfigError>)
    ensures r == Configured(src)
  {
    var cfg := Config("", "");
    if src.goos == "darwin" {
      var clientID := src.keychainClientID;
      if clientID.Ok? && clientID.value != "" {
        cfg := cfg.(clientID := clientID.value);
      }
      var tenantID := src.keychainTenantID;
      if tenantID.Ok? && tenantID.value != "" {
        cfg := cfg.(tenantID := tenantID.value);
      }
    }
    if cfg.clientID == "" {
      cfg := cfg.(clientID := src.envClientID);
    }
    if cfg.tenantID == "" {
      cfg := cfg.(tenantID := src.envTenantID);
    }
    if cfg.clientID == "" {
      return Err(ClientIDNotFound);
    }
    if cfg.tenantID == "" {
      return Err(TenantIDNotFound);
    }
    return Ok(cfg);
  }

  /** The Keychain wins when it has a value; a Keychain error, an empty
      Keychain entry or another operating system fall back to the
      environment; a configuration is only ever returned with both IDs
      set; a missing client ID is reported even when the tenant ID is
      missing too. */
  lemma ConfiguredPriority(src: Sources)
    ensures Configured(src).Ok? <==>
      Pick(src.goos, src.keychainClientID, src.envClientID) != ""
      && Pick(src.goos, src.keychainTenantID, src.envTenantID) != ""
    ensures Configured(src).Ok? ==> Configured(src).value.clientID != "" && Configured(src).value.tenantID != ""
    ensures Configured(src).Ok? && KeychainHas(src.goos, src.keychainClientID) ==>
      Configured(src).value.clientID == src.keychainClientID.value
    ensures Configured(src).Ok? && !KeychainHas(src.goos, src.keychainClientID) ==>
      Configured(src).value.clientID == src.envClientID
    ensures Configured(src).Ok? && KeychainHas(src.goos, src.keychainTenantID) ==>
      Configured(src).value.tenantID == src.keychainTenantID.value
    ensures Configured(src).Ok? && !KeychainHas(src.goos, src.keychainTenantID) ==>
      Configured(src).value.tenantID == src.envTenantID
    ensures Pick(src.goos, src.keychainClientID, src.envClientID) == "" ==> Configured(src) == Err(ClientIDNotFound)
    ensures Configured(src) == Err(TenantIDNotFound) ==>
      Pick(src.goos, src.keychainClientID, src.envClientID) != ""
      && Pick(src.goos, src.keychainTenantID, src.envTenantID) == ""
  {
  }

  /** Off macOS the Keychain is never consulted: only the environment
      decides. */
  lemma EnvironmentOnlyOffDarwin(src: Sources)
    requires src.goos != "darwin"
    ensures Configured(src) == (if src.envClientID == "" then Err(ClientIDNotFound)
                                else if src.envTenantID == "" then Err(TenantIDNotFound)
                                else Ok(Config(src.envClientID, src.envTenantID)))
  {
  }
}
