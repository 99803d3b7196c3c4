/** The settings file (`ConfigFile.parseConfigFile`): lines of the form
    `key value`, with `#` starting a comment. Five keys are recognised;
    every other line is ignored, and a later line overrides an earlier one
    for the same key. */
module Settings {
  import opened Results
  import opened Text

  /** The runtime options the settings file controls, and the one it
      cannot (`verboseCommandPort`). */
  datatype Config = Config(
    verboseListenPort: bool,
    verboseIncomingOsc: bool,
    verboseOutgoingOsc: bool,
    verboseForwardingRules: bool,
    verboseCommandPort: bool,
    serverListenPort: int)

  /** The values set before the file is read: every flag off, port 9000. */
  const Defaults := Config(false, false, false, false, false, 9000)

  /** The recognised keys. */
  datatype Key =
    | VerboseListenPort
    | VerboseIncomingOsc
    | VerboseOutgoingOsc
    | VerboseForwardingRules
    | ServerListenPort

  /** The spelling of each key in the file. */
  function KeyName(k: Key): string {
    match k
    case VerboseListenPort => "oscwhispers.verbose_listen_port"
    case VerboseIncomingOsc => "oscwhispers.verbose_incoming_osc"
    case VerboseOutgoingOsc => "oscwhispers.verbose_outgoing_osc"
    case VerboseForwardingRules => "oscwhispers.verbose_forwarding_rules"
    case ServerListenPort => "oscwhispers.server_listen_port"
  }

  /** The key a field names, if any. */
  function KeyOf(name: string): (r: Option<Key>)
    ensures r.Some? ==> KeyName(r.value) == name
    ensures forall k :: KeyName(k) == name ==> r == Some(k)
  {
    if name == KeyName(VerboseListenPort) then Some(VerboseListenPort)
    else if name == KeyName(VerboseIncomingOsc) then Some(VerboseIncomingOsc)
    else if name == KeyName(VerboseOutgoingOsc) then Some(VerboseOutgoingOsc)
    else if name == KeyName(VerboseForwardingRules) then Some(VerboseForwardingRules)
    else if name == KeyName(ServerListenPort) then Some(ServerListenPort)
    else None
  }

  /** A setting as the program holds it: a flag or a port number. */
  datatype Value = Flag(on: bool) | Port(number: int)

  /** The current setting of a key. */
  function Get(c: Config, k: Key): Value {
    match k
    case VerboseListenPort => Flag(c.verboseListenPort)
    case VerboseIncomingOsc => Flag(c.verboseIncomingOsc)
    case VerboseOutgoingOsc => Flag(c.verboseOutgoingOsc)
    case VerboseForwardingRules => Flag(c.verboseForwardingRules)
    case ServerListenPort => Port(c.serverListenPort)
  }

  /** What an integer read for a key becomes: `bool(n)` for a flag, the
      integer itself for the port. */
  function ValueOf(k: Key, n: int): Value {
    if k == ServerListenPort then Port(n) else Flag(n != 0)
  }

  /** Setting one key to the value read for it. */
  function Apply(c: Config, k: Key, n: int): (r: Config)
    ensures Get(r, k) == ValueOf(k, n)
    ensures forall other :: other != k ==> Get(r, other) == Get(c, other)
    ensures r.verboseCommandPort == c.verboseCommandPort
  {
    match k
    case VerboseListenPort => c.(verboseListenPort := n != 0)
    case VerboseIncomingOsc => c.(verboseIncomingOsc := n != 0)
    case VerboseOutgoingOsc => c.(verboseOutgoingOsc := n != 0)
    case VerboseForwardingRules => c.(verboseForwardingRules := n != 0)
    case ServerListenPort => c.(serverListenPort := n)
  }

  predicate IsDigit(c: char) {
    '0' <= c <= '9'
  }

  /** One or more decimal digits. */
  predicate AllDigits(s: string) {
    |s| > 0 && forall k :: 0 <= k < |s| ==> IsDigit(s[k])
  }

  /** The number a string of decimal digits spells. */
  function DigitsValue(s: string): nat
    requires forall k :: 0 <= k < |s| ==> IsDigit(s[k])
    decreases |s|
  {
    if |s| == 0 then 0
    else
      assert IsDigit(s[|s| - 1]);
      10 * DigitsValue(s[..|s| - 1]) + (s[|s| - 1] as int - '0' as int)
  }

  /** Python's `int(s)` on the decimal forms it accepts here: an optional
      sign followed by digits. */
  function ParseInt(s: string): (n: Option<int>)
    ensures n.Some? ==> |s| > 0 && IsDigit(s[|s| - 1])
    ensures n.Some? ==> forall k :: 1 <= k < |s| ==> IsDigit(s[k])
    ensures n.Some? && n.value < 0 ==> s[0] == '-'
    ensures AllDigits(s) ==> n == Some(DigitsValue(s))
  {
    if |s| > 0 && (s[0] == '+' || s[0] == '-') then
      if AllDigits(s[1..]) then
        var magnitude: int := DigitsValue(s[1..]);
        Some(if s[0] == '-' then -magnitude else magnitude)
      else None
    else if AllDigits(s) then Some(DigitsValue(s))
    else None
  }

  function DigitChar(d: nat): char
    requires d < 10
  {
    ('0' as int + d) as char
  }

  /** The decimal digits of `n`, most significant first. */
  function ShowNat(n: nat): (s: string)
    ensures AllDigits(s)
    decreases n
  {
    if n < 10 then [DigitChar(n)] else ShowNat(n / 10) + [DigitChar(n % 10)]
  }

  /** Python's `str(n)` for an integer. */
  function Show(n: int): string {
    if n < 0 then "-" + ShowNat(-n) else ShowNat(n)
  }

  lemma {:induction false} DigitsOfShow(n: nat)
    ensures DigitsValue(ShowNat(n)) == n
    decreases n
  {
    if n >= 10 {
      var s := ShowNat(n);
      assert s[..|s| - 1] == ShowNat(n / 10);
      DigitsOfShow(n / 10);
    }
  }

  /** Reading back a written integer gives the integer. */
  lemma {:induction false} ParseShow(n: int)
    ensures ParseInt(Show(n)) == Some(n)
  {
    if n < 0 {
      var s := Show(n);
      assert s[1..] == ShowNat(-n);
      DigitsOfShow(-n);
    } else {
      DigitsOfShow(n);
    }
  }

  /** Why a settings file is rejected: a recognised key without a value,
      or with a value that is not an integer. */
  datatype SettingsError =
    | MissingValue(line: string)
    | NotAnInteger(line: string, value: string)

  /** The fields of a line: the text before its first `#`, split on single
      spaces. */
  function Fields(line: string): (f: seq<string>)
    ensures |f| >= 1
    ensures forall i :: 0 <= i < |f| ==> ' ' !in f[i]
    ensures Join(f, ' ') == BeforeFirst(line, '#')
  {
    SplitPiecesFree(BeforeFirst(line, '#'), ' ');
    JoinSplit(BeforeFirst(line, '#'), ' ');
    SplitOn(BeforeFirst(line, '#'), ' ')
  }

  /** A line the parser accepts: empty, not naming a recognised key, or
      naming one with an integer after it. */
  predicate Acceptable(line: string) {
    var f := Fields(line);
    line == "" || KeyOf(f[0]).None? || (|f| >= 2 && ParseInt(f[1]).Some?)
  }

  /** The value a line sets for `k`, if it sets one. */
  function LineValue(line: string, k: Key): Option<int> {
    var f := Fields(line);
    if line != "" && f[0] == KeyName(k) && |f| >= 2 then ParseInt(f[1]) else None
  }

  /** One loop iteration: ignore empty lines and unknown keys, otherwise
      read the value after the key. */
  function ApplyLine(c: Config, line: string): (r: Result<Config, SettingsError>)
    ensures r.Ok? <==> Acceptable(line)
    ensures r.Err? ==> r.error.line == line
    ensures r.Err? && |Fields(line)| < 2 ==> r.error == MissingValue(line)
    ensures r.Err? && |Fields(line)| >= 2 ==> r.error == NotAnInteger(line, Fields(line)[1])
    ensures r.Ok? ==> r.value.verboseCommandPort == c.verboseCommandPort
    ensures r.Ok? ==> forall k :: Get(r.value, k) == match LineValue(line, k)
      case None => Get(c, k)
      case Some(n) => ValueOf(k, n)
  {
    var f := Fields(line);
    if line == "" then Ok(c)
    else match KeyOf(f[0])
      case None => Ok(c)
      case Some(k) =>
        if |f| < 2 then Err(MissingValue(line))
        else match ParseInt(f[1])
          case None => Err(NotAnInteger(line, f[1]))
          case Some(n) => Ok(Apply(c, k, n))
  }

  /** The loop over the lines, stopping at the first rejected one. */
  function ParseFrom(c: Config, lines: seq<string>): (r: Result<Config, SettingsError>)
    ensures r.Ok? ==> r.value.verboseCommandPort == c.verboseCommandPort
    decreases |lines|
  {
    if |lines| == 0 then Ok(c)
    else match ApplyLine(c, lines[0])
      case Err(e) => Err(e)
      case Ok(next) => ParseFrom(next, lines[1..])
  }

  /** Parsing after an accepted first line continues from its result. */
  lemma {:induction false} ParseFromStep(c: Config, lines: seq<string>, next: Config)
    requires |lines| > 0 && ApplyLine(c, lines[0]) == Ok(next)
    ensures ParseFrom(c, lines) == ParseFrom(next, lines[1..])
  {
  }

  /** `parseConfigFile`: the lines applied in order to the defaults. */
  function ParseConfig(lines: seq<string>): (r: Result<Config, SettingsError>)
    ensures r.Ok? ==> !r.value.verboseCommandPort
  {
    ParseFrom(Defaults, lines)
  }

  /** A file that sets no recognised key leaves every setting at its
      default: all flags off and port 9000. */
  lemma {:induction false} NothingSetGivesDefaults(lines: seq<string>)
    requires forall i :: 0 <= i < |lines| ==> lines[i] == "" || KeyOf(Fields(lines[i])[0]).None?
    ensures ParseConfig(lines) == Ok(Config(false, false, false, false, false, 9000))
  {
    UnknownLinesIgnored(Defaults, lines);
  }

  /** The value the last line setting `k` gives it, if any line does. */
  function LastValue(lines: seq<string>, k: Key): Option<int>
    decreases |lines|
  {
    if |lines| == 0 then None
    else match LastValue(lines[1..], k)
      case Some(n) => Some(n)
      case None => LineValue(lines[0], k)
  }

  /** `LastValue` finds the line after which no line sets the key. */
  lemma {:induction false} LastValueIsLast(lines: seq<string>, k: Key, i: nat)
    requires i < |lines| && LineValue(lines[i], k).Some?
    requires forall j :: i < j < |lines| ==> LineValue(lines[j], k).None?
    ensures LastValue(lines, k) == LineValue(lines[i], k)
    decreases i
  {
    if i > 0 {
      LastValueIsLast(lines[1..], k, i - 1);
    } else {
      LastValueNone(lines[1..], k);
    }
  }

  /** No line sets the key, so there is no last value. */
  lemma {:induction false} LastValueNone(lines: seq<string>, k: Key)
    requires forall j :: 0 <= j < |lines| ==> LineValue(lines[j], k).None?
    ensures LastValue(lines, k).None?
    decreases |lines|
  {
    if |lines| > 0 {
      LastValueNone(lines[1..], k);
    }
  }

  /** Parsing from `c` leaves each key at the value of the last line that
      sets it, or as in `c` when none does. */
  lemma {:induction false} ParseFromLastWins(c: Config, lines: seq<string>, k: Key)
    requires ParseFrom(c, lines).Ok?
    ensures Get(ParseFrom(c, lines).value, k) == match LastValue(lines, k)
      case None => Get(c, k)
      case Some(n) => ValueOf(k, n)
    decreases |lines|
  {
    if |lines| > 0 {
      var next := ApplyLine(c, lines[0]).value;
      ParseFromLastWins(next, lines[1..], k);
    }
  }

  /** The last line setting a key decides it; a key no line sets keeps its
      default. */
  lemma {:induction false} LastSettingWins(lines: seq<string>, k: Key)
    requires ParseConfig(lines).Ok?
    ensures Get(ParseConfig(lines).value, k) == match LastValue(lines, k)
      case None => Get(Defaults, k)
      case Some(n) => ValueOf(k, n)
  {
    ParseFromLastWins(Defaults, lines, k);
  }

  /** The file is accepted exactly when every line is acceptable. */
  lemma {:induction false} ParseFromSucceedsIff(c: Config, lines: seq<string>)
    ensures ParseFrom(c, lines).Ok? <==> forall i :: 0 <= i < |lines| ==> Acceptable(lines[i])
    decreases |lines|
  {
    if |lines| > 0 {
      if ApplyLine(c, lines[0]).Ok? {
        ParseFromSucceedsIff(ApplyLine(c, lines[0]).value, lines[1..]);
      }
      assert forall i :: 1 <= i < |lines| ==> lines[i] == lines[1..][i - 1];
    }
  }

  /** A rejected file is rejected at its first unacceptable line. */
  lemma {:induction false} ParseFromFailsAtFirst(c: Config, lines: seq<string>, i: nat)
    requires i < |lines| && !Acceptable(lines[i])
    requires forall j :: 0 <= j < i ==> Acceptable(lines[j])
    ensures ParseFrom(c, lines).Err? && ParseFrom(c, lines).error.line == lines[i]
    ensures |Fields(lines[i])| < 2 ==> ParseFrom(c, lines) == Err(MissingValue(lines[i]))
    ensures |Fields(lines[i])| >= 2 ==>
      ParseFrom(c, lines) == Err(NotAnInteger(lines[i], Fields(lines[i])[1]))
    decreases i
  {
    if i > 0 {
      var next := ParseFromAcceptedHead(c, lines);
      var rest := lines[1..];
      ShiftAll(Acceptable, lines, i);
      assert rest[i - 1] == lines[i];
      ParseFromFailsAtFirst(next, rest, i - 1);
    } else {
      ParseFromFailsHere(c, lines);
    }
  }

  /** A file whose first line is acceptable goes on from that line's
      result. */
  lemma {:induction false} ParseFromAcceptedHead(c: Config, lines: seq<string>) returns (next: Config)
    requires |lines| > 0 && Acceptable(lines[0])
    ensures ApplyLine(c, lines[0]) == Ok(next)
    ensures ParseFrom(c, lines) == ParseFrom(next, lines[1..])
  {
    next := ApplyLine(c, lines[0]).value;
    ParseFromStep(c, lines, next);
  }

  /** What holds for the first `i` values holds for the first `i - 1`
      values after the head. */
  lemma {:induction false} ShiftAll<T>(P: T -> bool, xs: seq<T>, i: nat)
    requires 0 < i <= |xs|
    requires forall j :: 0 <= j < i ==> P(xs[j])
    ensures forall j :: 0 <= j < i - 1 ==> P(xs[1..][j])
  {
    forall j | 0 <= j < i - 1
      ensures P(xs[1..][j])
    {
      assert xs[1..][j] == xs[j + 1];
    }
  }

  /** A file whose first line is unacceptable is rejected there. */
  lemma {:induction false} ParseFromFailsHere(c: Config, lines: seq<string>)
    requires |lines| > 0 && !Acceptable(lines[0])
    ensures ParseFrom(c, lines) == Err(ApplyLine(c, lines[0]).error)
    ensures ParseFrom(c, lines).error.line == lines[0]
  {
  }

  /** Lines naming no recognised key change nothing. */
  lemma {:induction false} UnknownLinesIgnored(c: Config, lines: seq<string>)
    requires forall i :: 0 <= i < |lines| ==> lines[i] == "" || KeyOf(Fields(lines[i])[0]).None?
    ensures ParseFrom(c, lines) == Ok(c)
    decreases |lines|
  {
    if |lines| > 0 {
      UnknownLinesIgnored(c, lines[1..]);
    }
  }

  /** The line `key value` for one setting. */
  function SettingLine(k: Key, n: int): string {
    KeyName(k) + " " + Show(n)
  }

  /** The integer that writes a setting back: 1 or 0 for a flag. */
  function Encode(v: Value): int {
    match v
    case Flag(on) => if on then 1 else 0
    case Port(n) => n
  }

  /** One line per `(key, value)` pair, in order. */
  function SettingLines(settings: seq<(Key, int)>): (lines: seq<string>)
    ensures |lines| == |settings|
    ensures forall i :: 0 <= i < |settings| ==> lines[i] == SettingLine(settings[i].0, settings[i].1)
  {
    seq(|settings|, i requires 0 <= i < |settings| => SettingLine(settings[i].0, settings[i].1))
  }

  /** The pairs applied in order. */
  function ApplyAll(c: Config, settings: seq<(Key, int)>): Config
    decreases |settings|
  {
    if |settings| == 0 then c else ApplyAll(Apply(c, settings[0].0, settings[0].1), settings[1..])
  }

  /** Every recognised setting of `c`, as integers. */
  function AsPairs(c: Config): seq<(Key, int)> {
    [ (VerboseListenPort, Encode(Get(c, VerboseListenPort))),
      (VerboseIncomingOsc, Encode(Get(c, VerboseIncomingOsc))),
      (VerboseOutgoingOsc, Encode(Get(c, VerboseOutgoingOsc))),
      (VerboseForwardingRules, Encode(Get(c, VerboseForwardingRules))),
      (ServerListenPort, Encode(Get(c, ServerListenPort))) ]
  }

  /** A settings file holding every recognised setting of `c`. */
  function Render(c: Config): seq<string> {
    SettingLines(AsPairs(c))
  }

  lemma {:induction false} ShowHasNoSeparators(n: int)
    ensures ' ' !in Show(n) && '#' !in Show(n)
  {
    var s := Show(n);
    if n < 0 {
      assert forall k :: 1 <= k < |s| ==> s[k] == ShowNat(-n)[k - 1];
    }
  }

  /** The characters key names are spelled with. */
  predicate IsNameChar(c: char) {
    ('a' <= c <= 'z') || c == '.' || c == '_'
  }

  /** Every character of `s` is a name character. */
  predicate NameChars(s: string) {
    forall j :: 0 <= j < |s| ==> IsNameChar(s[j])
  }

  // Each key name is spelled from `a`-`z`, `.` and `_` only.
  lemma {:induction false} ListenPortKeyChars()
    ensures NameChars(KeyName(VerboseListenPort))
  {
  }

  lemma {:induction false} IncomingKeyChars()
    ensures NameChars(KeyName(VerboseIncomingOsc))
  {
  }

  lemma {:induction false} OutgoingKeyChars()
    ensures NameChars(KeyName(VerboseOutgoingOsc))
  {
  }

  lemma {:induction false} RulesKeyChars()
    ensures NameChars(KeyName(VerboseForwardingRules))
  {
  }

  lemma {:induction false} ServerPortKeyChars()
    ensures NameChars(KeyName(ServerListenPort))
  {
  }

  /** Key names hold neither a space nor a comment sign. */
  lemma {:induction false} KeyNameHasNoSeparators(k: Key)
    ensures ' ' !in KeyName(k) && '#' !in KeyName(k)
  {
    match k
    case VerboseListenPort => ListenPortKeyChars();
    case VerboseIncomingOsc => IncomingKeyChars();
    case VerboseOutgoingOsc => OutgoingKeyChars();
    case VerboseForwardingRules => RulesKeyChars();
    case ServerListenPort => ServerPortKeyChars();
  }

  /** A setting line has exactly two fields: the key and the value. */
  lemma {:induction false} FieldsOfSettingLine(k: Key, n: int)
    ensures Fields(SettingLine(k, n)) == [KeyName(k), Show(n)]
  {
    var name := KeyName(k);
    var value := Show(n);
    var line := SettingLine(k, n);
    ShowHasNoSeparators(n);
    KeyNameHasNoSeparators(k);
    assert '#' !in line by {
      assert forall j :: 0 <= j < |line| ==> line[j] in name || line[j] == ' ' || line[j] in value;
    }
    assert BeforeFirst(line, '#') == line;
    assert Join([name, value], ' ') == line;
    SplitJoin([name, value], ' ');
  }

  /** A written setting line is read back as that setting. */
  lemma {:induction false} SettingLineApplies(c: Config, k: Key, n: int)
    ensures ApplyLine(c, SettingLine(k, n)) == Ok(Apply(c, k, n))
  {
    FieldsOfSettingLine(k, n);
    ParseShow(n);
    assert KeyOf(KeyName(k)) == Some(k);
    assert SettingLine(k, n) != "";
  }

  /** Written setting lines are read back as those settings, in order. */
  lemma {:induction false} SettingLinesApply(c: Config, settings: seq<(Key, int)>)
    ensures ParseFrom(c, SettingLines(settings)) == Ok(ApplyAll(c, settings))
    decreases |settings|
  {
    if |settings| > 0 {
      var lines := SettingLines(settings);
      SettingLineApplies(c, settings[0].0, settings[0].1);
      assert lines[1..] == SettingLines(settings[1..]);
      SettingLinesApply(Apply(c, settings[0].0, settings[0].1), settings[1..]);
    }
  }

  /** Writing a configuration out and reading it back gives it again (the
      file cannot carry `verboseCommandPort`, which stays off). */
  lemma {:induction false} RenderRoundTrip(c: Config)
    requires !c.verboseCommandPort
    ensures ParseConfig(Render(c)) == Ok(c)
  {
    SettingLinesApply(Defaults, AsPairs(c));
    ApplyAllSettings(c);
  }

  /** Applying every setting of `c` to the defaults rebuilds `c`. */
  lemma {:induction false} ApplyAllSettings(c: Config)
    requires !c.verboseCommandPort
    ensures ApplyAll(Defaults, AsPairs(c)) == c
  {
    var ss := AsPairs(c);
    var c1 := Apply(Defaults, ss[0].0, ss[0].1);
    var c2 := Apply(c1, ss[1].0, ss[1].1);
    var c3 := Apply(c2, ss[2].0, ss[2].1);
    var c4 := Apply(c3, ss[3].0, ss[3].1);
    var c5 := Apply(c4, ss[4].0, ss[4].1);
    assert ss[1..][0] == ss[1] && ss[1..][1..] == ss[2..];
    assert ss[2..][0] == ss[2] && ss[2..][1..] == ss[3..];
    assert ss[3..][0] == ss[3] && ss[3..][1..] == ss[4..];
    assert ss[4..][0] == ss[4] && ss[4..][1..] == [];
    assert ApplyAll(Defaults, ss) == ApplyAll(c1, ss[1..]);
    assert ApplyAll(c1, ss[1..]) == ApplyAll(c2, ss[2..]);
    assert ApplyAll(c2, ss[2..]) == ApplyAll(c3, ss[3..]);
    assert ApplyAll(c3, ss[3..]) == ApplyAll(c4, ss[4..]);
    assert ApplyAll(c4, ss[4..]) == c5;
  }
}
