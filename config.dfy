/**
 * Configuration loading of config.go: a configuration file overlays the
 * output-path flag, then each credential is taken from its flag, else from
 * the file, else from the environment, and the three credentials are
 * checked in a fixed order. Flags, the file and the environment are inputs.
 */
module Configuration {
  import opened Wrappers

  datatype Config = Config(accountNumber: string, meterPointId: string, apiKey: string, outputFile: string)

  /**
   * The command-line flags, already parsed: "" for a flag not given, except
   * `output`, which holds OutputFlag of what was given.
   */
  datatype Flags = Flags(configFile: string, account: string, meter: string, key: string, output: string)

  const DefaultOutputFile: string := "free_electricity.json"

  /** The value flag parsing gives `-output`: the path given, else DefaultOutputFile. */
  function OutputFlag(given: Option<string>): (path: string)
    ensures path == DefaultOutputFile <==> given.None? || given == Some(DefaultOutputFile)
    ensures given.Some? ==> path == given.value
  {
    if given.Some? then given.value else DefaultOutputFile
  }

  /**
   * A configuration file as read and decoded: a read or YAML failure, or the
   * fields it sets. A field the file does not mention is `None` and leaves
   * the value it would overlay alone.
   */
  datatype ConfigFile =
    | FileFailed
    | Parsed(accountNumber: Option<string>, meterPointId: Option<string>, apiKey: Option<string>, outputFile: Option<string>)

  /** The process environment, as os.Getenv sees it: "" for a variable that is not set. */
  type Env = string -> string

  const AccountEnv: string := "ACCOUNT_NUMBER"
  const MeterEnv: string := "METER_POINT_ID"
  const KeyEnv: string := "OCTOPUS_API_KEY"

  datatype ConfigError = FileLoadFailed | MissingAPIKey | MissingAccountNumber | MissingMeterPointID

  /** getEnvOrDefault: the variable's value when it is set and non-empty, the default otherwise. */
  function GetEnvOrDefault(env: Env, key: string, defaultValue: string): (v: string)
    ensures v == env(key) || v == defaultValue
    ensures v == env(key) <==> env(key) != "" || defaultValue == ""
  {
    if env(key) != "" then env(key) else defaultValue
  }

  function Overlay(field: Option<string>, current: string): string {
    if field.Some? then field.value else current
  }

  /**
   * The configuration after the file (if any) is decoded over the
   * flag-initialised one; it is missing only when a named file fails to load.
   */
  function AfterFile(flags: Flags, readFile: string -> ConfigFile): (r: Option<Config>)
    ensures r.None? <==> flags.configFile != "" && readFile(flags.configFile).FileFailed?
  {
    var initial := Config("", "", "", flags.output);
    if flags.configFile == "" then Some(initial)
    else
      match readFile(flags.configFile)
      case FileFailed => None
      case Parsed(a, m, k, o) =>
        Some(Config(Overlay(a, initial.accountNumber), Overlay(m, initial.meterPointId),
                    Overlay(k, initial.apiKey), Overlay(o, initial.outputFile)))
  }

  /** How a credential is chosen: the flag, else the file's value, else the environment's. */
  function Pick(flag: string, fromFile: string, fromEnv: string): (v: string)
    ensures flag != "" ==> v == flag
    ensures v == "" <==> flag == "" && fromFile == "" && fromEnv == ""
  {
    if flag != "" then flag else if fromFile != "" then fromFile else fromEnv
  }

  /**
   * loadConfig, after flag parsing: the file overlay, the three precedence
   * chains, then validation of the API key, account number and meter point
   * ID in that order.
   */
  method LoadConfig(flags: Flags, readFile: string -> ConfigFile, env: Env) returns (r: Result<Config, ConfigError>)
    ensures AfterFile(flags, readFile).None? <==> r == Failure(FileLoadFailed)
    ensures AfterFile(flags, readFile).Some? ==>
      var base := AfterFile(flags, readFile).value;
      var key := Pick(flags.key, base.apiKey, env(KeyEnv));
      var account := Pick(flags.account, base.accountNumber, env(AccountEnv));
      var meter := Pick(flags.meter, base.meterPointId, env(MeterEnv));
      && (key == "" ==> r == Failure(MissingAPIKey))
      && (key != "" && account == "" ==> r == Failure(MissingAccountNumber))
      && (key != "" && account != "" && meter == "" ==> r == Failure(MissingMeterPointID))
      && (key != "" && account != "" && meter != "" ==> r == Success(Config(account, meter, key, base.outputFile)))
    ensures r.Success? ==> r.value.apiKey != "" && r.value.accountNumber != "" && r.value.meterPointId != ""
  {
    var config := Config("", "", "", flags.output);
    if flags.configFile != "" {
      var file := readFile(flags.configFile);
      if file.FileFailed? {
        return Failure(FileLoadFailed);
      }
      config := Config(Overlay(file.accountNumber, config.accountNumber), Overlay(file.meterPointId, config.meterPointId),
                       Overlay(file.apiKey, config.apiKey), Overlay(file.outputFile, config.outputFile));
    }

    if flags.account != "" {
      config := config.(accountNumber := flags.account);
    } else if config.accountNumber == "" {
      config := config.(accountNumber := GetEnvOrDefault(env, AccountEnv, ""));
    }

    if flags.meter != "" {
      config := config.(meterPointId := flags.meter);
    } else if config.meterPointId == "" {
      config := config.(meterPointId := GetEnvOrDefault(env, MeterEnv, ""));
    }

    if flags.key != "" {
      config := config.(apiKey := flags.key);
    } else if config.apiKey == "" {
      config := config.(apiKey := env(KeyEnv));
    }

    if config.apiKey == "" {
      return Failure(MissingAPIKey);
    }
    if config.accountNumber == "" {
      return Failure(MissingAccountNumber);
    }
    if config.meterPointId == "" {
      return Failure(MissingMeterPointID);
    }
    return Success(config);
  }

  /**
   * A non-empty flag overrides the file and the environment; the
   * environment is used only when the flag and the file both leave the
   * credential empty.
   */
  lemma FlagOverridesFileAndEnv(flag: string, fromFile: string, fromEnv: string)
    ensures flag != "" ==> Pick(flag, fromFile, fromEnv) == flag
    ensures flag == "" && fromFile != "" ==> Pick(flag, fromFile, fromEnv) == fromFile
    ensures flag == "" && fromFile == "" ==> Pick(flag, fromFile, fromEnv) == fromEnv
  {
  }

  /** The output path comes from the file when the file sets it, and from the flag otherwise. */
  lemma OutputFilePrecedence(flags: Flags, readFile: string -> ConfigFile)
    requires AfterFile(flags, readFile).Some?
    ensures flags.configFile != "" && readFile(flags.configFile).outputFile.Some? ==>
              AfterFile(flags, readFile).value.outputFile == readFile(flags.configFile).outputFile.value
    ensures (flags.configFile == "" || readFile(flags.configFile).outputFile.None?) ==>
              AfterFile(flags, readFile).value.outputFile == flags.output
  {
  }

  /**
   * Without `-output` and without a file that sets `outputFile`, the data
   * goes to DefaultOutputFile.
   */
  lemma DefaultOutputPath(flags: Flags, readFile: string -> ConfigFile, env: Env)
    requires flags.output == OutputFlag(None)
    requires flags.configFile == "" || readFile(flags.configFile).Parsed?
    requires flags.configFile != "" ==> readFile(flags.configFile).outputFile.None?
    ensures AfterFile(flags, readFile).Some?
    ensures AfterFile(flags, readFile).value.outputFile == DefaultOutputFile
  {
    OutputFilePrecedence(flags, readFile);
  }
}
