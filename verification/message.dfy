/** Assembly of one RFC 3164 message, `<PRI>[HEADER ]BODY`, from a client's
    stored defaults and the optional per-call arguments. */
module Message {
  import opened Options
  import opened Decimal
  import opened Priority
  import opened Timestamp

  /** What a client stores at construction and never changes afterwards. */
  datatype Config = Config(facility: int, tag: Option<string>, hostname: Option<string>, includeTimestamp: bool)

  /** A client constructed with every argument left at its default. */
  const DefaultConfig := Config(USER, None, None, true)

  /** The optional per-call arguments; `None` is Python's None, the value a
      caller gets by not passing the argument at all. */
  datatype Overrides = Overrides(tag: Option<string>, hostname: Option<string>, includeTimestamp: Option<bool>)

  const NoOverrides := Overrides(None, None, None)

  /** A per-call tag or hostname: the argument unless it is None. An empty
      string is not None, so it wins over the default. */
  function ResolveText(arg: Option<string>, default: Option<string>): Option<string> {
    if arg.Some? then arg else default
  }

  function ResolveFlag(arg: Option<bool>, default: bool): bool {
    if arg.Some? then arg.value else default
  }

  /** Python truthiness of a str-or-None: present and non-empty. */
  predicate Truthy(x: Option<string>) {
    x.Some? && |x.value| > 0
  }

  /** `sep.join(parts)`. */
  function Join(parts: seq<string>, sep: string): (r: string)
    ensures |parts| == 0 ==> r == ""
    ensures |parts| == 1 ==> r == parts[0]
    ensures |parts| == 2 ==> r == parts[0] + sep + parts[1]
  {
    if |parts| == 0 then ""
    else if |parts| == 1 then parts[0]
    else parts[0] + sep + Join(parts[1..], sep)
  }

  function HeaderParts(cfg: Config, ov: Overrides, now: DateTime): seq<string>
    requires Valid(now)
  {
    var hostname := ResolveText(ov.hostname, cfg.hostname);
    (if ResolveFlag(ov.includeTimestamp, cfg.includeTimestamp) then [FormatTimestamp(now)] else [])
      + (if Truthy(hostname) then [hostname.value] else [])
  }

  /** The header is the timestamp and/or the resolved hostname, joined by a
      single space; it is empty exactly when the timestamp is off and no
      non-empty hostname resolves. */
  function Header(cfg: Config, ov: Overrides, now: DateTime): (h: string)
    requires Valid(now)
    ensures var ts := ResolveFlag(ov.includeTimestamp, cfg.includeTimestamp);
      var hostname := ResolveText(ov.hostname, cfg.hostname);
      && (ts && Truthy(hostname) ==> h == FormatTimestamp(now) + " " + hostname.value)
      && (ts && !Truthy(hostname) ==> h == FormatTimestamp(now))
      && (!ts && Truthy(hostname) ==> h == hostname.value)
      && (|h| == 0 <==> !ts && !Truthy(hostname))
  {
    Join(HeaderParts(cfg, ov, now), " ")
  }

  /** The message text, after `tag + ": "` when a non-empty tag resolves. */
  function Body(cfg: Config, ov: Overrides, message: string): (r: string)
    ensures |message| <= |r| && r[|r| - |message|..] == message
  {
    var tag := ResolveText(ov.tag, cfg.tag);
    if Truthy(tag) then tag.value + ": " + message else message
  }

  /** `<PRI>`, then the header and one space when the header is non-empty,
      then the body. */
  function Assemble(pri: int, header: string, body: string): (r: string)
    ensures 1 <= |r| && r[0] == '<'
    ensures ParsePri(r) == Some((pri, if |header| > 0 then header + " " + body else body))
    ensures |body| <= |r| && r[|r| - |body|..] == body
  {
    var tail := if |header| > 0 then header + " " + body else body;
    ParsePriPrefix(pri, tail);
    assert tail[|tail| - |body|..] == body;
    if |header| > 0 then
      var r := "<" + IntToString(pri) + ">" + header + " " + body;
      assert r == "<" + IntToString(pri) + ">" + tail;
      r
    else
      "<" + IntToString(pri) + ">" + body
  }

  /** The formatted message. It opens with '<', a collector reading the PRI
      part gets back `(facility << 3) + severity`, and the message text ends
      the result unchanged: nothing is escaped or truncated. */
  function BuildMessage(cfg: Config, severity: int, message: string, ov: Overrides, now: DateTime): (r: string)
    requires Valid(now)
    ensures 1 <= |r| && r[0] == '<'
    ensures ParsePri(r).Some? && ParsePri(r).value.0 == Pri(cfg.facility, severity)
    ensures |message| <= |r| && r[|r| - |message|..] == message
  {
    var body := Body(cfg, ov, message);
    var r := Assemble(Pri(cfg.facility, severity), Header(cfg, ov, now), body);
    assert r[|r| - |body|..][|body| - |message|..] == r[|r| - |message|..];
    r
  }

  /** The position of the first `c` in `s` at or after `from`. */
  function IndexOf(s: string, c: char, from: nat): (r: Option<nat>)
    requires from <= |s|
    ensures r.Some? ==> from <= r.value < |s| && s[r.value] == c
    ensures r.Some? ==> forall j :: from <= j < r.value ==> s[j] != c
    ensures r.None? ==> forall j :: from <= j < |s| ==> s[j] != c
    decreases |s| - from
  {
    if from == |s| then None
    else if s[from] == c then Some(from)
    else IndexOf(s, c, from + 1)
  }

  /** How a collector reads the PRI part: '<', a decimal, then the first '>';
      it returns the number and everything after the '>'. */
  function ParsePri(s: string): Option<(int, string)> {
    if |s| == 0 || s[0] != '<' then None
    else
      match IndexOf(s, '>', 1)
      case None => None
      case Some(k) =>
        match ParseInt(s[1..k])
        case None => None
        case Some(pri) => Some((pri, s[k + 1..]))
  }

  lemma NoCloseAngle(i: int)
    ensures forall k :: 0 <= k < |IntToString(i)| ==> IntToString(i)[k] != '>'
  {
    var d := IntToString(i);
    if i < 0 {
      forall k | 1 <= k < |d|
        ensures d[k] != '>'
      {
        assert d[k] == d[1..][k - 1];
      }
    }
  }

  /** The PRI part of a message always reads back as the PRI written. */
  lemma ParsePriPrefix(pri: int, rest: string)
    ensures ParsePri("<" + IntToString(pri) + ">" + rest) == Some((pri, rest))
  {
    var d := IntToString(pri);
    var s := "<" + d + ">" + rest;
    NoCloseAngle(pri);
    assert forall j :: 1 <= j < |d| + 1 ==> s[j] == d[j - 1];
    assert s[|d| + 1] == '>';
    assert IndexOf(s, '>', 1) == Some(|d| + 1);
    assert s[1..|d| + 1] == d;
    ParseIntToString(pri);
    assert s[|d| + 2..] == rest;
  }

  /** One optional field of the wire format followed by its own separator,
      or nothing when the field is absent or empty. */
  function Field(x: Option<string>, sep: string): string {
    if Truthy(x) then x.value + sep else ""
  }

  /** `<PRI>TIMESTAMP HOSTNAME TAG: MESSAGE` read field by field, each
      present field carrying its own trailing separator: an independent
      statement of the layout `BuildMessage` produces. */
  function WireFormat(pri: int, timestamp: Option<string>, hostname: Option<string>,
                      tag: Option<string>, message: string): string
  {
    "<" + IntToString(pri) + ">" + Field(timestamp, " ") + Field(hostname, " ") + Field(tag, ": ") + message
  }

  /** What `BuildMessage` produces is the wire format of the PRI, the
      timestamp when it resolves on, and the resolved hostname and tag. */
  lemma BuildMessageIsWireFormat(cfg: Config, severity: int, message: string, ov: Overrides, now: DateTime)
    requires Valid(now)
    ensures BuildMessage(cfg, severity, message, ov, now)
         == WireFormat(Pri(cfg.facility, severity),
                       if ResolveFlag(ov.includeTimestamp, cfg.includeTimestamp) then Some(FormatTimestamp(now)) else None,
                       ResolveText(ov.hostname, cfg.hostname),
                       ResolveText(ov.tag, cfg.tag),
                       message)
  {
    var ts := if ResolveFlag(ov.includeTimestamp, cfg.includeTimestamp) then Some(FormatTimestamp(now)) else None;
    var hostname := ResolveText(ov.hostname, cfg.hostname);
    var tag := ResolveText(ov.tag, cfg.tag);
    HeaderFields(cfg, ov, now);
    AssembleFields(Pri(cfg.facility, severity), Header(cfg, ov, now), Field(ts, " "), Field(hostname, " "),
                   Field(tag, ": "), message);
  }

  /** The header plus its trailing space is the timestamp field followed by
      the hostname field. */
  lemma HeaderFields(cfg: Config, ov: Overrides, now: DateTime)
    requires Valid(now)
    ensures var ts := if ResolveFlag(ov.includeTimestamp, cfg.includeTimestamp) then Some(FormatTimestamp(now)) else None;
      var fields := Field(ts, " ") + Field(ResolveText(ov.hostname, cfg.hostname), " ");
      var h := Header(cfg, ov, now);
      (if |h| > 0 then h + " " else "") == fields
  {
  }

  lemma AssembleFields(pri: int, header: string, tsField: string, hostField: string, tagField: string, message: string)
    requires (if |header| > 0 then header + " " else "") == tsField + hostField
    ensures Assemble(pri, header, tagField + message)
         == "<" + IntToString(pri) + ">" + tsField + hostField + tagField + message
  {
    var d := "<" + IntToString(pri) + ">";
    var body := tagField + message;
    if |header| > 0 {
      calc {
        Assemble(pri, header, body);
        d + header + " " + body;
        { Associative(d, header + " ", body); }
        d + (header + " ") + body;
        d + (tsField + hostField) + body;
        { Associative(d, tsField, hostField); }
        d + tsField + hostField + body;
        { Associative(d + tsField + hostField, tagField, message); }
        d + tsField + hostField + tagField + message;
      }
    } else {
      calc {
        Assemble(pri, header, body);
        d + body;
        { Associative(d, tagField, message); }
        d + tsField + hostField + tagField + message;
      }
    }
  }

  // Proof helper: regrouping hint that keeps `AssembleFields` within budget.
  lemma Associative(a: string, b: string, c: string)
    ensures a + b + c == a + (b + c)
  {
  }

  /** The output is `<PRI>` directly followed by the body, with no space in
      between, exactly when the timestamp is off and no non-empty hostname
      resolves. */
  lemma NoHeaderIff(cfg: Config, severity: int, message: string, ov: Overrides, now: DateTime)
    requires Valid(now)
    ensures BuildMessage(cfg, severity, message, ov, now)
              == "<" + IntToString(Pri(cfg.facility, severity)) + ">" + Body(cfg, ov, message)
            <==> !ResolveFlag(ov.includeTimestamp, cfg.includeTimestamp) && !Truthy(ResolveText(ov.hostname, cfg.hostname))
  {
  }

  /** The body carries a `TAG: ` prefix exactly when a non-empty tag
      resolves, and the prefix is then the tag, a colon and one space. */
  lemma TagPrefixIff(cfg: Config, ov: Overrides, message: string)
    ensures var tag := ResolveText(ov.tag, cfg.tag);
      && (Body(cfg, ov, message) == message <==> !Truthy(tag))
      && (Truthy(tag) ==> Body(cfg, ov, message) == tag.value + ": " + message)
  {
    var tag := ResolveText(ov.tag, cfg.tag);
    if Truthy(tag) {
      assert |Body(cfg, ov, message)| == |tag.value| + 2 + |message|;
    }
  }

  /** The client's defaults with the given per-call values put in their place. */
  function WithOverrides(cfg: Config, ov: Overrides): Config {
    Config(cfg.facility, ResolveText(ov.tag, cfg.tag), ResolveText(ov.hostname, cfg.hostname),
           ResolveFlag(ov.includeTimestamp, cfg.includeTimestamp))
  }

  /** A per-call value acts exactly as if the client had been constructed
      with it as the default. */
  lemma OverrideActsAsDefault(cfg: Config, severity: int, message: string, ov: Overrides, now: DateTime)
    requires Valid(now)
    ensures BuildMessage(cfg, severity, message, ov, now)
         == BuildMessage(WithOverrides(cfg, ov), severity, message, NoOverrides, now)
  {
    assert Header(cfg, ov, now) == Header(WithOverrides(cfg, ov), NoOverrides, now);
  }

  /** With no per-call values, the stored tag, hostname and timestamp flag
      decide the output. */
  lemma AbsentOverridesUseDefaults(cfg: Config, severity: int, message: string, now: DateTime)
    requires Valid(now)
    ensures BuildMessage(cfg, severity, message, NoOverrides, now)
         == WireFormat(Pri(cfg.facility, severity),
                       if cfg.includeTimestamp then Some(FormatTimestamp(now)) else None,
                       cfg.hostname, cfg.tag, message)
  {
    BuildMessageIsWireFormat(cfg, severity, message, NoOverrides, now);
  }

  /** An explicit empty tag and hostname and an explicit False timestamp flag
      win over whatever the client stores: only the PRI part and the message
      remain. */
  lemma ExplicitEmptyOverridesWin(cfg: Config, severity: int, message: string, now: DateTime)
    requires Valid(now)
    ensures BuildMessage(cfg, severity, message, Overrides(Some(""), Some(""), Some(false)), now)
         == "<" + IntToString(Pri(cfg.facility, severity)) + ">" + message
  {
    BuildMessageIsWireFormat(cfg, severity, message, Overrides(Some(""), Some(""), Some(false)), now);
  }

  /** When every per-call value is given, the stored tag, hostname and
      timestamp flag play no part. */
  lemma GivenOverridesIgnoreDefaults(cfg1: Config, cfg2: Config, severity: int, message: string,
                                     ov: Overrides, now: DateTime)
    requires Valid(now)
    requires cfg1.facility == cfg2.facility
    requires ov.tag.Some? && ov.hostname.Some? && ov.includeTimestamp.Some?
    ensures BuildMessage(cfg1, severity, message, ov, now) == BuildMessage(cfg2, severity, message, ov, now)
  {
    BuildMessageIsWireFormat(cfg1, severity, message, ov, now);
    BuildMessageIsWireFormat(cfg2, severity, message, ov, now);
  }

  /** With the timestamp on and no non-empty hostname or tag, the header is the
      timestamp alone and one space separates it from the message. */
  lemma TimestampOnly(cfg: Config, severity: int, message: string, ov: Overrides, now: DateTime)
    requires Valid(now)
    requires ResolveFlag(ov.includeTimestamp, cfg.includeTimestamp)
    requires !Truthy(ResolveText(ov.hostname, cfg.hostname)) && !Truthy(ResolveText(ov.tag, cfg.tag))
    ensures BuildMessage(cfg, severity, message, ov, now)
         == "<" + IntToString(Pri(cfg.facility, severity)) + ">" + FormatTimestamp(now) + " " + message
  {
    BuildMessageIsWireFormat(cfg, severity, message, ov, now);
  }

  /** A client constructed with every argument at its default logs as
      facility user, with the timestamp and no hostname or tag. */
  lemma DefaultConfigFormat(severity: int, message: string, now: DateTime)
    requires Valid(now)
    ensures BuildMessage(DefaultConfig, severity, message, NoOverrides, now)
         == "<" + IntToString(8 + severity) + ">" + FormatTimestamp(now) + " " + message
  {
    ShiftLeftByThree(USER);
    TimestampOnly(DefaultConfig, severity, message, NoOverrides, now);
  }
}
