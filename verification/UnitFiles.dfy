/**
 * The systemd unit file of a node: rendering it, and reading the port back with the pattern
 * "-p " followed by digits.
 */
module UnitFiles {
  import opened Prelude
  import opened Decimal

  // The fixed text in front of the first mention of the executable, cut into lines and half lines.
  const DESCRIPTION := "[Unit]\nDescription=GPT Protocol Node "
  const AFTER := "\nAfter=network.target\n# Fail if pre"
  const CHECK_FAILS := "-check fails\nOnFailure=failure"
  const HANDLER := "-handler.service\n\n[Service]\n"
  const TYPE := "Type=simple\n# Verify SEV"
  const SNP := "-SNP hardware support before "
  const START_PRE := "starting\nExecStartPre="
  // Between the two mentions of the executable.
  const CHECK := " check\n# Replace this process "
  const START := "with QEMU via execv\nExecStart="
  // Behind the second one.
  const LAUNCH := " launch"
  const INTERNAL := "-internal "
  const FLAG := "-p "
  const AFTER_PORT := "\n" +
    "# Graceful shutdown via SIGTERM to QEMU -> ACPI to Guest\nKillSignal=SIGTERM\nTimeoutStopSec=120\n" +
    "# Do not restart automatically on failure (per requirements)\nRestart=no\n" +
    "# Run as root for /dev/sev and memory locking\nUser=root\nGroup=root\n" +
    "# Security hardening\nPrivateTmp=true\n\n[Install]\nWantedBy=multi-user.target\n"

  function Head(nodeId: nat): string {
    DESCRIPTION + (Show(nodeId) + (AFTER + (CHECK_FAILS + (HANDLER + (TYPE + (SNP + START_PRE))))))
  }

  function PortFlag(port: nat): string {
    FLAG + (Show(port) + AFTER_PORT)
  }

  /** The command line behind the second mention of the executable, and the rest of the file. */
  function Launch(nodeId: nat, port: nat): string {
    LAUNCH + (INTERNAL + (Show(nodeId) + (" " + PortFlag(port))))
  }

  function Render(exe: string, nodeId: nat, port: nat): string {
    Head(nodeId) + (exe + (CHECK + (START + (exe + Launch(nodeId, port)))))
  }

  /// Reading

  type RunStart = r: int | r >= 0x0660 witness 0x0660

  // Where the runs of ten decimal digits beyond ASCII start (Unicode 16, general category Nd).
  const DIGIT_RUNS: seq<RunStart> := [
    0x0660, 0x06F0, 0x07C0, 0x0966, 0x09E6, 0x0A66, 0x0AE6, 0x0B66, 0x0BE6, 0x0C66, 0x0CE6, 0x0D66, 0x0DE6,
    0x0E50, 0x0ED0, 0x0F20, 0x1040, 0x1090, 0x17E0, 0x1810, 0x1946, 0x19D0, 0x1A80, 0x1A90, 0x1B50, 0x1BB0,
    0x1C40, 0x1C50, 0xA620, 0xA8D0, 0xA900, 0xA9D0, 0xA9F0, 0xAA50, 0xABF0, 0xFF10, 0x104A0, 0x10D30, 0x10D40,
    0x11066, 0x110F0, 0x11136, 0x111D0, 0x112F0, 0x11450, 0x114D0, 0x11650, 0x116C0, 0x116D0, 0x116DA, 0x11730,
    0x118E0, 0x11950, 0x11BF0, 0x11C50, 0x11D50, 0x11DA0, 0x11F50, 0x16130, 0x16A60, 0x16AC0, 0x16B50, 0x16D70,
    0x1CCF0, 0x1D7CE, 0x1D7D8, 0x1D7E2, 0x1D7EC, 0x1D7F6, 0x1E140, 0x1E2F0, 0x1E4F0, 0x1E5F1, 0x1E950, 0x1FBF0]

  /** What the digit class of the pattern accepts: decimal digits of every script. */
  predicate PatternDigit(c: char) {
    IsDigit(c) || exists i | 0 <= i < |DIGIT_RUNS| :: 0 <= c as int - DIGIT_RUNS[i] < 10
  }

  predicate MatchAt(s: string, i: nat) {
    i + 3 < |s| && s[i] == '-' && s[i + 1] == 'p' && s[i + 2] == ' ' && PatternDigit(s[i + 3])
  }

  /** The digits are those of ASCII and of the runs, and no others. */
  lemma PatternDigitExactly(c: char)
    ensures PatternDigit(c) <==>
            '0' <= c <= '9' || exists r :: r in DIGIT_RUNS && r <= c as int <= r + 9
  {
    if i :| 0 <= i < |DIGIT_RUNS| && 0 <= c as int - DIGIT_RUNS[i] < 10 {
      assert DIGIT_RUNS[i] in DIGIT_RUNS;
    }
  }

  /** The pattern matches where a dash, a p, a blank and a digit follow each other. */
  lemma MatchExactly(s: string, i: nat)
    requires i <= |s|
    ensures MatchAt(s, i) <==> exists c, rest :: PatternDigit(c) && s[i..] == "-p " + [c] + rest
  {
    if MatchAt(s, i) {
      assert s[i..] == "-p " + [s[i + 3]] + s[i + 4..];
    }
    if c, rest :| PatternDigit(c) && s[i..] == "-p " + [c] + rest {
      assert s[i..][0] == s[i] && s[i..][1] == s[i + 1] && s[i..][2] == s[i + 2] && s[i..][3] == s[i + 3];
    }
  }

  /** The digits `s` starts with. */
  function DigitRun(s: string): string {
    if s != "" && PatternDigit(s[0]) then [s[0]] + DigitRun(s[1..]) else ""
  }

  /** The digits captured by the leftmost match of the pattern. */
  function FindPort(s: string): Option<string> {
    if s == "" then None
    else if MatchAt(s, 0) then Some(DigitRun(s[3..]))
    else FindPort(s[1..])
  }

  /** `parse::<u16>()` on digits: it reads ASCII digits only. */
  function ParseU16(s: string): Option<nat> {
    if IsNumeral(s) && Value(s) < 0x1_0000 then Some(Value(s)) else None
  }

  /** Ports up to 65535 are read, and nothing else. */
  lemma ParseU16Exactly(n: nat, s: string)
    ensures ParseU16(Show(n)) == if n <= 65535 then Some(n) else None
    ensures !IsNumeral(s) ==> ParseU16(s) == None
  {
    ValueOfShow(n);
  }

  function PortOf(text: string): Option<nat> {
    match FindPort(text) case Some(digits) => ParseU16(digits) case None => None
  }

  /// Why the rendered port is found

  /** Every dash in `s` is followed, inside `s`, by something other than 'p'. */
  predicate DashSafe(s: string) {
    forall i | 0 <= i < |s| && s[i] == '-' :: i + 1 < |s| && s[i + 1] != 'p'
  }

  /** The executable path holds no match of the pattern. */
  predicate NoPortIn(exe: string) {
    forall i: nat :: i < |exe| ==> !MatchAt(exe, i)
  }

  lemma HeadTextsSafe()
    ensures DashSafe(DESCRIPTION) && DashSafe(AFTER) && DashSafe(CHECK_FAILS) && DashSafe(HANDLER)
  {}

  lemma UnitTextsSafe()
    ensures DashSafe(TYPE) && DashSafe(SNP) && DashSafe(START_PRE)
  {}

  lemma CommandTextsSafe()
    ensures DashSafe(CHECK) && DashSafe(START) && DashSafe(LAUNCH) && DashSafe(INTERNAL)
  {}

  lemma SafeConcat(a: string, b: string)
    requires DashSafe(a) && DashSafe(b)
    ensures DashSafe(a + b)
  {}

  lemma HeadSafe(nodeId: nat)
    ensures DashSafe(Head(nodeId))
  {
    HeadTextsSafe();
    UnitTextsSafe();
    SafeConcat(SNP, START_PRE);
    SafeConcat(TYPE, SNP + START_PRE);
    SafeConcat(HANDLER, TYPE + (SNP + START_PRE));
    SafeConcat(CHECK_FAILS, HANDLER + (TYPE + (SNP + START_PRE)));
    SafeConcat(AFTER, CHECK_FAILS + (HANDLER + (TYPE + (SNP + START_PRE))));
    SafeConcat(Show(nodeId), AFTER + (CHECK_FAILS + (HANDLER + (TYPE + (SNP + START_PRE)))));
    SafeConcat(DESCRIPTION, Show(nodeId) + (AFTER + (CHECK_FAILS + (HANDLER + (TYPE + (SNP + START_PRE))))));
  }

  lemma {:induction false} SafeIsSkipped(a: string, b: string)
    requires DashSafe(a)
    ensures FindPort(a + b) == FindPort(b)
  {
    if a == "" {
      assert a + b == b;
    } else {
      assert (a + b)[1..] == a[1..] + b;
      forall i | 0 <= i < |a[1..]| && a[1..][i] == '-' ensures i + 1 < |a[1..]| && a[1..][i + 1] != 'p' {
        assert a[i + 1] == '-';
      }
      SafeIsSkipped(a[1..], b);
    }
  }

  /** The text behind an executable starts with a blank and a letter. */
  predicate StartsArguments(b: string) {
    |b| > 1 && b[0] == ' ' && !PatternDigit(b[1])
  }

  lemma {:induction false} ExeIsSkipped(exe: string, b: string)
    requires NoPortIn(exe) && StartsArguments(b)
    ensures FindPort(exe + b) == FindPort(b)
  {
    if exe == "" {
      assert exe + b == b;
    } else {
      assert (exe + b)[1..] == exe[1..] + b;
      assert !MatchAt(exe, 0);
      forall i: nat | i < |exe[1..]| ensures !MatchAt(exe[1..], i) {
        assert !MatchAt(exe, i + 1);
      }
      ExeIsSkipped(exe[1..], b);
    }
  }

  lemma {:induction false} RunStops(a: string, b: string)
    requires b == "" || !PatternDigit(b[0])
    ensures DigitRun(a + b) == DigitRun(a)
    ensures (forall i | 0 <= i < |a| :: PatternDigit(a[i])) ==> DigitRun(a) == a
  {
    if a == "" {
      assert a + b == b;
    } else {
      assert (a + b)[1..] == a[1..] + b;
      RunStops(a[1..], b);
    }
  }

  lemma FlagIsFound(port: nat)
    ensures FindPort(PortFlag(port)) == Some(Show(port))
  {
    var s := PortFlag(port);
    var rest := Show(port) + AFTER_PORT;
    assert AFTER_PORT[0] == '\n';
    assert s[0] == '-' && s[1] == 'p' && s[2] == ' ';
    assert s[3..] == rest;
    assert s[3] == rest[0] == Show(port)[0];
    RunStops(Show(port), AFTER_PORT);
  }

  lemma LaunchIsRead(nodeId: nat, port: nat)
    ensures FindPort(Launch(nodeId, port)) == Some(Show(port))
  {
    CommandTextsSafe();
    SafeIsSkipped(LAUNCH, INTERNAL + (Show(nodeId) + (" " + PortFlag(port))));
    SafeIsSkipped(INTERNAL, Show(nodeId) + (" " + PortFlag(port)));
    SafeIsSkipped(Show(nodeId), " " + PortFlag(port));
    SafeIsSkipped(" ", PortFlag(port));
    FlagIsFound(port);
  }

  lemma LaunchStartsArguments(nodeId: nat, port: nat)
    ensures StartsArguments(Launch(nodeId, port))
  {
    assert Launch(nodeId, port)[0] == LAUNCH[0] && Launch(nodeId, port)[1] == LAUNCH[1];
  }

  lemma CheckIsSkipped(rest: string)
    ensures FindPort(CHECK + (START + rest)) == FindPort(rest)
    ensures StartsArguments(CHECK + (START + rest))
  {
    CommandTextsSafe();
    SafeIsSkipped(CHECK, START + rest);
    SafeIsSkipped(START, rest);
    assert (CHECK + (START + rest))[0] == CHECK[0] && (CHECK + (START + rest))[1] == CHECK[1];
  }

  /** The port read from a rendered unit file is the port rendered, if the path holds no port flag of its own. */
  lemma RenderedPortIsRead(exe: string, nodeId: nat, port: nat)
    requires NoPortIn(exe) && port < 0x1_0000
    ensures PortOf(Render(exe, nodeId, port)) == Some(port)
  {
    var launch := Launch(nodeId, port);
    HeadSafe(nodeId);
    SafeIsSkipped(Head(nodeId), exe + (CHECK + (START + (exe + launch))));
    CheckIsSkipped(exe + launch);
    ExeIsSkipped(exe, CHECK + (START + (exe + launch)));
    LaunchIsRead(nodeId, port);
    LaunchStartsArguments(nodeId, port);
    ExeIsSkipped(exe, launch);
    ValueOfShow(port);
  }

  lemma {:induction false} ExeMatchWins(exe: string, b: string)
    requires !NoPortIn(exe) && b != "" && !PatternDigit(b[0])
    ensures FindPort(exe + b) == FindPort(exe)
  {
    var i: nat :| i < |exe| && MatchAt(exe, i);
    assert (exe + b)[1..] == exe[1..] + b;
    assert MatchAt(exe + b, 0) == MatchAt(exe, 0);
    if MatchAt(exe, 0) {
      assert (exe + b)[3..] == exe[3..] + b;
      RunStops(exe[3..], b);
    } else {
      assert MatchAt(exe[1..], i - 1);
      ExeMatchWins(exe[1..], b);
    }
  }

  /** Every port survives rendering and reading exactly when the executable path holds no port flag. */
  lemma PortRoundTripIff(exe: string, nodeId: nat)
    ensures (forall port: nat :: port < 0x1_0000 ==> PortOf(Render(exe, nodeId, port)) == Some(port)) <==> NoPortIn(exe)
  {
    if NoPortIn(exe) {
      forall port: nat | port < 0x1_0000 ensures PortOf(Render(exe, nodeId, port)) == Some(port) {
        RenderedPortIsRead(exe, nodeId, port);
      }
    } else {
      HeadSafe(nodeId);
      forall port: nat ensures FindPort(Render(exe, nodeId, port)) == FindPort(exe) {
        var rest := CHECK + (START + (exe + Launch(nodeId, port)));
        SafeIsSkipped(Head(nodeId), exe + rest);
        CheckIsSkipped(exe + Launch(nodeId, port));
        ExeMatchWins(exe, rest);
      }
      assert PortOf(Render(exe, nodeId, 0)) == PortOf(Render(exe, nodeId, 1));
    }
  }
}
