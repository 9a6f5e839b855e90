/** Log severities. The enumeration has a byte underneath, and any byte can reach the code. */
module LogLevels {
  newtype LogLevel = x: int | 0 <= x < 256

  const OFF: LogLevel := 0x00
  const FATAL: LogLevel := 0x01
  const ERROR: LogLevel := 0x02
  const WARN: LogLevel := 0x03
  const INFO: LogLevel := 0x04
  const DEBUG: LogLevel := 0x05
  const VERBOSE: LogLevel := 0x06

  /** The printed name of a severity; empty for off and for undefined values. */
  function LevelName(level: LogLevel): string {
    if level == FATAL then "FATAL"
    else if level == ERROR then "ERROR"
    else if level == WARN then "WARN"
    else if level == INFO then "INFO"
    else if level == DEBUG then "DEBUG"
    else if level == VERBOSE then "VERBOSE"
    else ""
  }

  /** The severity a name stands for; off when it is no severity's name. */
  function LevelOf(name: string): LogLevel {
    if name == "FATAL" then FATAL
    else if name == "ERROR" then ERROR
    else if name == "WARN" then WARN
    else if name == "INFO" then INFO
    else if name == "DEBUG" then DEBUG
    else if name == "VERBOSE" then VERBOSE
    else OFF
  }
}
