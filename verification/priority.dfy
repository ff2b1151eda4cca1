/** Facility and severity codes of section 4.1.1 of RFC 3164 and the PRI value
    that combines them. */
module Priority {

  // Facility codes
  const KERN: int := 0
  const USER: int := 1
  const MAIL: int := 2
  const DAEMON: int := 3
  const AUTH: int := 4
  const SYSLOG: int := 5
  const LPR: int := 6
  const NEWS: int := 7
  const UUCP: int := 8
  const CRON: int := 9
  const AUTHPRIV: int := 10
  const FTP: int := 11
  const NTP: int := 12
  const AUDIT: int := 13
  const LOG_ALERT: int := 14
  const CLOCK: int := 15
  const LOCAL0: int := 16
  const LOCAL1: int := 17
  const LOCAL2: int := 18
  const LOCAL3: int := 19
  const LOCAL4: int := 20
  const LOCAL5: int := 21
  const LOCAL6: int := 22
  const LOCAL7: int := 23

  // Severity codes, 0 the most severe
  const EMERG: int := 0
  const ALERT: int := 1
  const CRIT: int := 2
  const ERR: int := 3
  const WARN: int := 4
  const NOTICE: int := 5
  const INFO: int := 6
  const DEBUG: int := 7

  predicate ValidFacility(facility: int) {
    KERN <= facility <= LOCAL7
  }

  predicate ValidSeverity(severity: int) {
    EMERG <= severity <= DEBUG
  }

  /** Python's `x << k` on an unbounded int: k doublings, exact for either sign. */
  function ShiftLeft(x: int, k: nat): int {
    if k == 0 then x else ShiftLeft(x, k - 1) * 2
  }

  lemma ShiftLeftByThree(x: int)
    ensures ShiftLeft(x, 3) == x * 8
  {
    assert ShiftLeft(x, 1) == x * 2;
    assert ShiftLeft(x, 2) == x * 4;
  }

  /** `(facility << 3) + severity`. Nothing is range-checked: an
      out-of-table facility with a table severity gives a PRI outside
      0..191 (`OutOfTableFacility`), while an out-of-table severity can give
      a PRI inside the range that reads as another pair (`SeverityAliasing`). */
  function Pri(facility: int, severity: int): (pri: int)
    ensures ValidFacility(facility) && ValidSeverity(severity) ==> 0 <= pri <= 191
    ensures ValidSeverity(severity) ==> pri / 8 == facility && pri % 8 == severity
  {
    ShiftLeftByThree(facility);
    ShiftLeft(facility, 3) + severity
  }

  /** How a collector splits a PRI back into facility and severity. */
  function Decompose(pri: int): (fs: (int, int)) {
    (pri / 8, pri % 8)
  }

  /** For a severity in the table, the PRI determines both codes. */
  lemma DecomposePri(facility: int, severity: int)
    requires ValidSeverity(severity)
    ensures Decompose(Pri(facility, severity)) == (facility, severity)
  {
  }

  /** Every PRI in 0..191 comes from exactly one valid pair of codes. */
  lemma PriDecompose(pri: int)
    requires 0 <= pri <= 191
    ensures ValidFacility(Decompose(pri).0) && ValidSeverity(Decompose(pri).1)
    ensures Pri(Decompose(pri).0, Decompose(pri).1) == pri
  {
  }

  /** An out-of-table facility paired with a table severity lands outside
      0..191, below zero exactly when the facility is negative. */
  lemma OutOfTableFacility(facility: int, severity: int)
    requires !ValidFacility(facility) && ValidSeverity(severity)
    ensures Pri(facility, severity) < 0 || 191 < Pri(facility, severity)
    ensures Pri(facility, severity) < 0 <==> facility < 0
  {
  }

  /** A severity eight too high is the next facility's severity: the PRI
      cannot tell them apart, which is why `PriInjective` needs table
      severities. `log(8, ...)` on a kern client reads as user.emerg. */
  lemma SeverityAliasing(facility: int, severity: int)
    ensures Pri(facility, severity + 8) == Pri(facility + 1, severity)
    ensures !ValidSeverity(8) && Pri(KERN, 8) == Pri(USER, EMERG)
  {
    ShiftLeftByThree(facility);
    ShiftLeftByThree(facility + 1);
  }

  /** Two pairs of codes with table severities give the same PRI only when
      they are the same pair. */
  lemma PriInjective(f1: int, s1: int, f2: int, s2: int)
    requires ValidSeverity(s1) && ValidSeverity(s2)
    requires Pri(f1, s1) == Pri(f2, s2)
    ensures f1 == f2 && s1 == s2
  {
    DecomposePri(f1, s1);
    DecomposePri(f2, s2);
  }
}
