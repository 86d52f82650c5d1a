/**
 * models/configuration/configuration.go: the settings read from the `.env`
 * file. Reading the file (godotenv.Read) is outside this model; each getter
 * receives its outcome, the key/value map or the error it produced.
 */
module Configuration {
  import opened Errors
  import opened Strconv

  const RepositoryModeKeyName: string := "REPOSITORY_MODE"
  const PortKeyName: string := "PORT"
  const MemoryRepository: string := "mem"
  const CsvFileRepository: string := "csv"
  const RepositoryModeDefault: string := MemoryRepository
  const PortDefault: int := 8080

  /** Indexing a Go map: a missing key reads as the empty string. */
  function Lookup(configMap: map<string, string>, key: string): (v: string)
    ensures key in configMap ==> v == configMap[key]
    ensures key !in configMap ==> v == ""
  {
    if key in configMap then configMap[key] else ""
  }

  /** GetRepositoryMode: the configured mode verbatim, "mem" when it is empty or missing. */
  function GetRepositoryMode(config: Result<map<string, string>>): (r: Result<string>)
    ensures config.Err? ==> r == Err(config.error)
    ensures config.Ok? ==> r.Ok? && r.value != ""
    ensures config.Ok? && Lookup(config.value, RepositoryModeKeyName) != "" ==> r.value == config.value[RepositoryModeKeyName]
    ensures config.Ok? && Lookup(config.value, RepositoryModeKeyName) == "" ==> r.value == "mem"
  {
    match config
    case Err(e) => Err(e)
    case Ok(configMap) =>
      var repositoryMode := Lookup(configMap, RepositoryModeKeyName);
      Ok(if repositoryMode == "" then RepositoryModeDefault else repositoryMode)
  }

  lemma PortDefaultText()
    ensures Itoa(PortDefault) == "8080"
  {
    assert Digits(8) == "8";
    assert Digits(80) == "80";
    assert Digits(808) == "808";
  }

  /** GetBackendHostUrl: ":" followed by the configured port, ":8080" when it is empty or missing. */
  function GetBackendHostUrl(config: Result<map<string, string>>): (r: Result<string>)
    ensures config.Err? ==> r == Err(config.error)
    ensures config.Ok? ==> r.Ok? && |r.value| > 1 && r.value[0] == ':'
    ensures config.Ok? && Lookup(config.value, PortKeyName) != "" ==> r.value[1..] == config.value[PortKeyName]
    ensures config.Ok? && Lookup(config.value, PortKeyName) == "" ==> r.value == ":8080"
  {
    match config
    case Err(e) => Err(e)
    case Ok(configMap) =>
      var port := Lookup(configMap, PortKeyName);
      var port' := if port == "" then (PortDefaultText(); Itoa(PortDefault)) else port;
      Ok(":" + port')
  }
}
