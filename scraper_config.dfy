/**
 * The start of `main` in scraper.py: merge config.json with the command
 * line and insist on login, password and playlist. Option values model
 * argparse's None for an option that was not given (and JSON null).
 */
module ScraperConfig {

  import opened Wrappers

  type Config = map<string, Option<string>>

  const RequiredKeys: set<string> := {"login", "password", "playlist"}

  /** The destinations `parse_args` always puts in its dict, given or not. */
  const ArgumentKeys: set<string> := {"playlist", "format", "dir", "android_id", "login", "password"}

  const IncompleteConfig: string :=
    "Invalid or incomplete combination of args in config.json and commandline. Must at least contain login, password, and playlist."

  /**
   * With config.json, its values updated by every command-line value that is
   * not None; without it, the command-line dict as it is.
   */
  function MergeConfig(configFile: Option<Config>, commandLine: Config): (r: Config)
    ensures configFile.None? ==> r == commandLine
    ensures configFile.Some? ==>
      forall k :: k in commandLine && commandLine[k].Some? ==> k in r && r[k] == commandLine[k]
    ensures configFile.Some? ==>
      forall k :: k in configFile.value && (k !in commandLine || commandLine[k].None?)
        ==> k in r && r[k] == configFile.value[k]
    ensures configFile.Some? ==>
      forall k :: k in r ==> k in configFile.value || (k in commandLine && commandLine[k].Some?)
  {
    match configFile
    case None => commandLine
    case Some(file) => file + map k | k in commandLine && commandLine[k].Some? :: commandLine[k]
  }

  /** The check as written: `all(key in config for key in ['login', 'password', 'playlist'])`. */
  predicate RequiredKeysPresent(config: Config) {
    forall k :: k in RequiredKeys ==> k in config
  }

  /** The check as intended: each of login, password and playlist has a value. */
  predicate RequiredValuesPresent(config: Config) {
    forall k :: k in RequiredKeys ==> k in config && config[k].Some?
  }

  /**
   * Without config.json the check as written always passes, whatever was
   * typed, because argparse puts every destination in its dict.
   */
  lemma PresenceCheckPassesWithoutConfigFile(commandLine: Config)
    requires ArgumentKeys <= commandLine.Keys
    ensures RequiredKeysPresent(MergeConfig(None, commandLine))
  {
    assert RequiredKeys <= ArgumentKeys;
  }

  /** The command line with nothing given: only the defaults of `format` and `dir` have values. */
  function NoArguments(torrentsDir: string): Config {
    map["playlist" := None, "format" := Some("mp3"), "dir" := Some(torrentsDir),
        "android_id" := None, "login" := None, "password" := None]
  }

  /**
   * The input that shows it: no config.json and no login, password or
   * playlist on the command line passes the check as written, and the
   * intended check rejects it.
   */
  lemma PresenceCheckAcceptsMissingValues(torrentsDir: string)
    ensures ArgumentKeys == NoArguments(torrentsDir).Keys
    ensures RequiredKeysPresent(MergeConfig(None, NoArguments(torrentsDir)))
    ensures MergeConfig(None, NoArguments(torrentsDir))["login"] == None
    ensures !RequiredValuesPresent(MergeConfig(None, NoArguments(torrentsDir)))
  {
    PresenceCheckPassesWithoutConfigFile(NoArguments(torrentsDir));
  }

  /** The configuration `main` goes on with, or the message it exits with, using the intended check. */
  function LoadConfig(configFile: Option<Config>, commandLine: Config): (r: Result<Config, string>)
    ensures r.Ok? ==> r.value == MergeConfig(configFile, commandLine)
    ensures r.Ok? ==> forall k :: k in RequiredKeys ==> k in r.value && r.value[k].Some?
    ensures r.Err? ==> r.error == IncompleteConfig
    ensures r.Err? ==>
      exists k :: k in RequiredKeys && (k !in MergeConfig(configFile, commandLine)
                                        || MergeConfig(configFile, commandLine)[k].None?)
  {
    var config := MergeConfig(configFile, commandLine);
    if RequiredValuesPresent(config) then Ok(config) else Err(IncompleteConfig)
  }

  /**
   * argparse gives `format` and `dir` their defaults, which are never None,
   * so they always override config.json; other keys of config.json are kept
   * when nothing was typed.
   */
  lemma DefaultsOverrideConfigFile(file: Config, torrentsDir: string)
    ensures MergeConfig(Some(file), NoArguments(torrentsDir))["format"] == Some("mp3")
    ensures MergeConfig(Some(file), NoArguments(torrentsDir))["dir"] == Some(torrentsDir)
    ensures forall k :: k in file && k != "format" && k != "dir" ==>
      k in MergeConfig(Some(file), NoArguments(torrentsDir)) && MergeConfig(Some(file), NoArguments(torrentsDir))[k] == file[k]
  {
  }
}
