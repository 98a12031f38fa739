/** The mapping from a configured level name to a level of Python's logging module
    (Util.logging_level). Names that are not in the table fall back to NOTSET. */
module Logging {

  const NOTSET: int := 0
  const DEBUG: int := 10
  const INFO: int := 20
  const WARNING: int := 30
  const ERROR: int := 40
  const CRITICAL: int := 50

  /** The lookup table of Util.logging_level; WARN is an alias of WARNING. */
  const LEVELS: map<string, int> := map[
    "INFO" := INFO,
    "WARN" := WARNING,
    "WARNING" := WARNING,
    "ERROR" := ERROR,
    "DEBUG" := DEBUG,
    "CRITICAL" := CRITICAL
  ]

  /** The six level names the table recognises, stated independently of the table. */
  predicate IsLevelName(name: string) {
    name == "INFO" || name == "WARN" || name == "WARNING" ||
    name == "ERROR" || name == "DEBUG" || name == "CRITICAL"
  }

  /** A level other than NOTSET. */
  predicate IsSetLevel(level: int) {
    level == DEBUG || level == INFO || level == WARNING || level == ERROR || level == CRITICAL
  }

  /** Total lookup with NOTSET as the default. */
  function LoggingLevel(name: string): (level: int)
    ensures IsLevelName(name) <==> IsSetLevel(level)
    ensures !IsLevelName(name) <==> level == NOTSET
    ensures name == "INFO" ==> level == INFO
    ensures name == "WARN" || name == "WARNING" ==> level == WARNING
    ensures name == "ERROR" ==> level == ERROR
    ensures name == "DEBUG" ==> level == DEBUG
    ensures name == "CRITICAL" ==> level == CRITICAL
  {
    if name in LEVELS then LEVELS[name] else NOTSET
  }

  /** Two different recognised names give the same level only when they are WARN and WARNING. */
  lemma OnlyWarnIsAnAlias(a: string, b: string)
    requires a != b && IsLevelName(a) && IsLevelName(b)
    requires LoggingLevel(a) == LoggingLevel(b)
    ensures {a, b} == {"WARN", "WARNING"}
  {
  }

  /** The canonical name of a set level, as Python's logging module prints it. */
  function LevelName(level: int): string
    requires IsSetLevel(level)
  {
    if level == DEBUG then "DEBUG"
    else if level == INFO then "INFO"
    else if level == WARNING then "WARNING"
    else if level == ERROR then "ERROR"
    else "CRITICAL"
  }

  /** Every set level is reached from its own canonical name. */
  lemma LookupOfLevelName(level: int)
    requires IsSetLevel(level)
    ensures LoggingLevel(LevelName(level)) == level
  {
  }

  /** Every recognised name other than the alias WARN is the canonical name of the level it gives. */
  lemma LevelNameOfLookup(name: string)
    requires IsLevelName(name) && name != "WARN"
    ensures LevelName(LoggingLevel(name)) == name
  {
  }
}
