/** Severity levels of the application log. */
module LogLevels {

  datatype LogLevel = DEBUG | INFO | WARNING | ERROR | CRITICAL

  const AllLevels: seq<LogLevel> := [DEBUG, INFO, WARNING, ERROR, CRITICAL]

  function Severity(l: LogLevel): nat
  {
    match l case DEBUG => 0 case INFO => 1 case WARNING => 2 case ERROR => 3 case CRITICAL => 4
  }

  /** The label stored with each constant. */
  function Label(l: LogLevel): string
  {
    match l
    case DEBUG => "DEBUG" case INFO => "INFO" case WARNING => "WARNING"
    case ERROR => "ERROR" case CRITICAL => "CRITICAL"
  }

  /** Enum.name(). */
  function Name(l: LogLevel): string
  {
    match l
    case DEBUG => "DEBUG" case INFO => "INFO" case WARNING => "WARNING"
    case ERROR => "ERROR" case CRITICAL => "CRITICAL"
  }

  /** LogLevel.isAtLeastAs. */
  predicate IsAtLeastAs(self: LogLevel, other: LogLevel)
  {
    Severity(self) >= Severity(other)
  }

  /** Severities follow declaration order 0..4 and each label equals its name. */
  lemma SeverityTable()
    ensures forall k :: 0 <= k < |AllLevels| ==> Severity(AllLevels[k]) == k
    ensures forall l: LogLevel :: Label(l) == Name(l)
  {
  }

  /** isAtLeastAs is a total order: reflexive, transitive, total and antisymmetric. */
  lemma IsAtLeastAsTotalOrder(a: LogLevel, b: LogLevel, c: LogLevel)
    ensures IsAtLeastAs(a, a)
    ensures IsAtLeastAs(a, b) && IsAtLeastAs(b, c) ==> IsAtLeastAs(a, c)
    ensures IsAtLeastAs(a, b) || IsAtLeastAs(b, a)
    ensures IsAtLeastAs(a, b) && IsAtLeastAs(b, a) ==> a == b
  {
  }
}
