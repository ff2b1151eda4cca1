/** The logging surface of a syslog client: the generic log call and the
    severity shortcuts. Transmission is left out; a call yields the client it
    was made on and the datagram text it would send. */
module Client {
  import opened Options
  import opened Decimal
  import opened Priority
  import opened Timestamp
  import opened Message

  /** The shortcut operations, one per severity from alert to debug. */
  datatype Level = Alert | Critical | Error | Warning | Notice | Info | Debug

  /** The severity a shortcut logs with. No shortcut logs at EMERG. */
  function LevelSeverity(level: Level): (severity: int)
    ensures ALERT <= severity <= DEBUG
  {
    match level
    case Alert => ALERT
    case Critical => CRIT
    case Error => ERR
    case Warning => WARN
    case Notice => NOTICE
    case Info => INFO
    case Debug => DEBUG
  }

  /** The shortcut that logs with a given severity, if there is one. */
  function LevelOf(severity: int): Option<Level> {
    if severity == ALERT then Some(Alert)
    else if severity == CRIT then Some(Critical)
    else if severity == ERR then Some(Error)
    else if severity == WARN then Some(Warning)
    else if severity == NOTICE then Some(Notice)
    else if severity == INFO then Some(Info)
    else if severity == DEBUG then Some(Debug)
    else None
  }

  /** Distinct shortcuts log with distinct severities. */
  lemma LevelSeverityRoundTrip(level: Level)
    ensures LevelOf(LevelSeverity(level)) == Some(level)
  {
  }

  /** Every severity except EMERG has exactly one shortcut. */
  lemma SeverityHasShortcut(severity: int)
    ensures LevelOf(severity).Some? <==> ALERT <= severity <= DEBUG
    ensures LevelOf(severity).Some? ==> LevelSeverity(LevelOf(severity).value) == severity
  {
  }

  /** What a log call leaves behind: the client and the datagram text. */
  datatype Sent = Sent(client: Config, datagram: string)

  /** `log(severity, message, tag, hostname, include_timestamp)`. The client's
      stored defaults come back unchanged, and the datagram is the wire format
      of the PRI, the timestamp when the resolved flag is on, and the resolved
      hostname and tag. */
  function Log(cfg: Config, severity: int, message: string, ov: Overrides, now: DateTime): (r: Sent)
    requires Valid(now)
    ensures r.client == cfg
    ensures r.datagram
         == WireFormat(Pri(cfg.facility, severity),
                       if ResolveFlag(ov.includeTimestamp, cfg.includeTimestamp) then Some(FormatTimestamp(now)) else None,
                       ResolveText(ov.hostname, cfg.hostname),
                       ResolveText(ov.tag, cfg.tag),
                       message)
  {
    BuildMessageIsWireFormat(cfg, severity, message, ov, now);
    Sent(cfg, BuildMessage(cfg, severity, message, ov, now))
  }

  /** `alert(msg)` … `debug(msg)`: a log call at the shortcut's severity in
      which the stored timestamp flag, hostname and tag decide every field. */
  function Shortcut(cfg: Config, level: Level, message: string, now: DateTime): (r: Sent)
    requires Valid(now)
    ensures r.client == cfg
    ensures r.datagram
         == WireFormat(Pri(cfg.facility, LevelSeverity(level)),
                       if cfg.includeTimestamp then Some(FormatTimestamp(now)) else None,
                       cfg.hostname, cfg.tag, message)
  {
    Log(cfg, LevelSeverity(level), message, NoOverrides, now)
  }

  /** One log call with its arguments and the clock reading it sees. */
  datatype Call = Call(severity: int, message: string, overrides: Overrides, now: DateTime)

  predicate ValidCalls(calls: seq<Call>) {
    forall i :: 0 <= i < |calls| ==> Valid(calls[i].now)
  }

  lemma ValidCallsTail(calls: seq<Call>)
    requires ValidCalls(calls) && 0 < |calls|
    ensures ValidCalls(calls[1..])
  {
    forall i | 0 <= i < |calls[1..]|
      ensures Valid(calls[1..][i].now)
    {
      assert calls[1..][i] == calls[i + 1];
    }
  }

  /** Makes the calls in order on one client, threading the client through
      and collecting the datagrams. */
  function Replay(cfg: Config, calls: seq<Call>): (r: (Config, seq<string>))
    requires ValidCalls(calls)
    ensures |r.1| == |calls|
    decreases |calls|
  {
    if |calls| == 0 then (cfg, [])
    else
      var c := calls[0];
      var sent := Log(cfg, c.severity, c.message, c.overrides, c.now);
      ValidCallsTail(calls);
      var rest := Replay(sent.client, calls[1..]);
      (rest.0, [sent.datagram] + rest.1)
  }

  /** However many calls were made and whatever per-call values they passed,
      the client keeps its defaults. */
  lemma {:induction false} ReplayKeepsDefaults(cfg: Config, calls: seq<Call>)
    requires ValidCalls(calls)
    ensures Replay(cfg, calls).0 == cfg
    decreases |calls|
  {
    if |calls| > 0 {
      var c := calls[0];
      assert Log(cfg, c.severity, c.message, c.overrides, c.now).client == cfg;
      ValidCallsTail(calls);
      ReplayKeepsDefaults(cfg, calls[1..]);
    }
  }

  /** So a call without per-call values made after any sequence of calls
      gives the same datagram as on a fresh client. */
  lemma LaterCallUnaffected(cfg: Config, calls: seq<Call>, severity: int, message: string, now: DateTime)
    requires ValidCalls(calls) && Valid(now)
    ensures Log(Replay(cfg, calls).0, severity, message, NoOverrides, now).datagram
         == Log(cfg, severity, message, NoOverrides, now).datagram
  {
    ReplayKeepsDefaults(cfg, calls);
  }

  /** Each datagram of a replay is what that call would give on the client
      alone. */
  lemma {:induction false} ReplayDatagrams(cfg: Config, calls: seq<Call>, i: nat)
    requires ValidCalls(calls) && i < |calls|
    ensures Replay(cfg, calls).1[i]
         == Log(cfg, calls[i].severity, calls[i].message, calls[i].overrides, calls[i].now).datagram
    decreases i
  {
    var c := calls[0];
    var sent := Log(cfg, c.severity, c.message, c.overrides, c.now);
    ValidCallsTail(calls);
    var rest := Replay(sent.client, calls[1..]);
    assert Replay(cfg, calls).1 == [sent.datagram] + rest.1;
    if i > 0 {
      assert sent.client == cfg;
      ReplayDatagrams(cfg, calls[1..], i - 1);
      assert calls[1..][i - 1] == calls[i];
      assert Replay(cfg, calls).1[i] == rest.1[i - 1];
    } else {
      assert Replay(cfg, calls).1[0] == sent.datagram;
    }
  }

  /** Facility user, tag "myapp", hostname "host1", timestamp off:
      `info("hello")` sends `<14>host1 myapp: hello`. */
  lemma InfoExample(now: DateTime)
    requires Valid(now)
    ensures Shortcut(Config(USER, Some("myapp"), Some("host1"), false), Info, "hello", now).datagram
         == "<14>host1 myapp: hello"
  {
    assert Pri(USER, LevelSeverity(Info)) == 14 by { ShiftLeftByThree(USER); }
    WireExample(14, "14", None, Some("host1"), Some("myapp"), "hello", "<14>host1 myapp: hello");
  }

  /** Facility daemon, no tag, no hostname, timestamp off: an ERR message
      "disk full" is sent as `<27>disk full`. */
  lemma DaemonErrorExample(now: DateTime)
    requires Valid(now)
    ensures Log(Config(DAEMON, None, None, false), ERR, "disk full", NoOverrides, now).datagram
         == "<27>disk full"
  {
    assert Pri(DAEMON, ERR) == 27 by { ShiftLeftByThree(DAEMON); }
    WireExample(27, "27", None, None, None, "disk full", "<27>disk full");
  }

  /** The wire format of a two-digit PRI, spelled out. */
  lemma WireExample(pri: nat, digits: string, timestamp: Option<string>, hostname: Option<string>,
                    tag: Option<string>, message: string, expected: string)
    requires 10 <= pri < 100 && digits == [DigitChar(pri / 10), DigitChar(pri % 10)]
    requires expected == "<" + digits + ">" + Field(timestamp, " ") + Field(hostname, " ") + Field(tag, ": ") + message
    ensures WireFormat(pri, timestamp, hostname, tag, message) == expected
  {
    assert NatToString(pri / 10) == [DigitChar(pri / 10)];
    assert IntToString(pri) == digits;
  }

  /** The fifth of January is written with a space, not a zero, before the day. */
  lemma DayPaddingExample()
    ensures FormatTimestamp(DateTime(1, 5, 9, 3, 7)) == "Jan  5 09:03:07"
    ensures FormatTimestamp(DateTime(1, 15, 23, 59, 0)) == "Jan 15 23:59:00"
  {
    FormatFromFields("Jan  5 09:03:07", DateTime(1, 5, 9, 3, 7));
    FormatFromFields("Jan 15 23:59:00", DateTime(1, 15, 23, 59, 0));
  }
}
