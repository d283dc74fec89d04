/** What a rendered unit file makes systemd run: the command lines read back from its text. */
module CommandLines {
  import opened Prelude
  import opened Decimal
  import opened UnitFiles
  import HostServices

  const EXEC_START := "\nExecStart="
  const EXEC_START_PRE := "\nExecStartPre="

  /** The executable, the node it launches, and the port it is given. */
  datatype Command = Command(exe: string, nodeId: nat, port: nat)

  /// Reading

  /** What stands behind the first `marker` in `s`. */
  function Behind(s: string, marker: string): Option<string> {
    if marker <= s then Some(s[|marker|..])
    else if s == "" then None
    else Behind(s[1..], marker)
  }

  function FirstLine(s: string): string {
    if s == "" || s[0] == '\n' then "" else [s[0]] + FirstLine(s[1..])
  }

  /** The setting that a line with the key `marker` holds. */
  function Setting(text: string, marker: string): Option<string> {
    match Behind(text, marker) case Some(rest) => Some(FirstLine(rest)) case None => None
  }

  /** `s` cut at its last blank. */
  function CutLast(s: string): Option<(string, string)> {
    if s == "" then None
    else
      var n := |s| - 1;
      if s[n] == ' ' then Some((s[..n], ""))
      else match CutLast(s[..n]) case Some((a, b)) => Some((a, b + [s[n]])) case None => None
  }

  /** `<exe> launch-internal <node> -p <port>`, read from the end. */
  function ParseCommand(line: string): Option<Command> {
    match CutLast(line)
    case None => None
    case Some((r1, port)) =>
      match CutLast(r1)
      case None => None
      case Some((r2, flag)) =>
        match CutLast(r2)
        case None => None
        case Some((r3, node)) =>
          match CutLast(r3)
          case None => None
          case Some((exe, verb)) =>
            if verb == "launch-internal" && flag == "-p" && IsNumeral(node) && IsNumeral(port)
            then Some(Command(exe, Value(node), Value(port)))
            else None
  }

  /** What the service of a unit file starts. */
  function StartedBy(text: string): Option<Command> {
    match Setting(text, EXEC_START) case Some(line) => ParseCommand(line) case None => None
  }

  /// Reading back what was rendered

  lemma {:induction false} CutAtBlank(a: string, b: string)
    requires ' ' !in b
    ensures CutLast(a + " " + b) == Some((a, b))
  {
    var s := a + " " + b;
    if b == "" {
      assert s[..|s| - 1] == a;
    } else {
      var n := |b| - 1;
      assert s[..|s| - 1] == a + " " + b[..n];
      CutAtBlank(a, b[..n]);
      assert b[..n] + [b[n]] == b;
    }
  }

  lemma NumeralHasNoBlank(s: string)
    requires IsNumeral(s)
    ensures ' ' !in s && '\n' !in s
  {}

  function CommandText(exe: string, nodeId: nat, port: nat): string {
    exe + " launch-internal " + Show(nodeId) + " -p " + Show(port)
  }

  lemma CommandIsParsed(exe: string, nodeId: nat, port: nat)
    ensures ParseCommand(CommandText(exe, nodeId, port)) == Some(Command(exe, nodeId, port))
  {
    NumeralHasNoBlank(Show(nodeId));
    NumeralHasNoBlank(Show(port));
    var r3 := exe + " " + "launch-internal";
    var r2 := r3 + " " + Show(nodeId);
    var r1 := r2 + " " + "-p";
    assert CommandText(exe, nodeId, port) == r1 + " " + Show(port);
    CutAtBlank(r1, Show(port));
    CutAtBlank(r2, "-p");
    CutAtBlank(r3, Show(nodeId));
    CutAtBlank(exe, "launch-internal");
    ValueOfShow(nodeId);
    ValueOfShow(port);
  }

  /** No line of `s` but the first, and none that begins behind `s`, starts with the letter of the keys. */
  predicate NoKeyIn(s: string) {
    forall i | 0 <= i < |s| && s[i] == '\n' :: i + 1 < |s| && s[i + 1] != 'E'
  }

  lemma NoKeyHere(a: string, b: string, marker: string)
    requires a != "" && NoKeyIn(a) && |marker| > 1 && marker[0] == '\n' && marker[1] == 'E'
    ensures !(marker <= a + b)
  {
    assert a[0] == '\n' ==> (a + b)[1] == a[1];
  }

  lemma {:induction false} KeyIsBehind(a: string, b: string, marker: string)
    requires NoKeyIn(a) && (marker == EXEC_START || marker == EXEC_START_PRE)
    ensures Behind(a + b, marker) == Behind(b, marker)
  {
    if a == "" {
      assert a + b == b;
    } else {
      assert (a + b)[1..] == a[1..] + b;
      forall i | 0 <= i < |a[1..]| && a[1..][i] == '\n' ensures i + 1 < |a[1..]| && a[1..][i + 1] != 'E' {
        assert a[i + 1] == '\n';
      }
      NoKeyHere(a, b, marker);
      KeyIsBehind(a[1..], b, marker);
    }
  }

  lemma {:induction false} LineEnds(a: string, b: string)
    requires '\n' !in a
    ensures FirstLine(a + "\n" + b) == a
  {
    var s := a + "\n" + b;
    if a != "" {
      assert s[1..] == a[1..] + "\n" + b;
      LineEnds(a[1..], b);
    }
  }

  const UNIT_TEXT := HANDLER + TYPE
  const VERIFY := SNP + "starting"
  const REPLACE := CHECK + "with QEMU via execv"

  lemma TextsHaveNoKey()
    ensures NoKeyIn(DESCRIPTION) && NoKeyIn(AFTER) && NoKeyIn(CHECK_FAILS)
  {}

  lemma UnitTextHasNoKey()
    ensures NoKeyIn(UNIT_TEXT) && NoKeyIn(VERIFY)
  {}

  lemma CheckHasNoKey()
    ensures NoKeyIn(REPLACE)
  {}

  lemma NoLineNoKey(s: string)
    requires '\n' !in s
    ensures NoKeyIn(s)
  {}

  lemma Assoc(a: string, b: string, c: string)
    ensures (a + b) + c == a + (b + c)
  {}

  /** The head of the file and what stands behind it, cut at the first key. */
  lemma HeadParts(nodeId: nat, rest: string)
    ensures Head(nodeId) + rest ==
            DESCRIPTION + (Show(nodeId) + (AFTER + (CHECK_FAILS + (UNIT_TEXT + (VERIFY + (EXEC_START_PRE + rest))))))
  {
    var id := Show(nodeId);
    var t5 := SNP + START_PRE;
    var t4 := TYPE + t5;
    var t3 := HANDLER + t4;
    var t2 := CHECK_FAILS + t3;
    var t1 := AFTER + t2;
    Assoc(DESCRIPTION, id + t1, rest);
    Assoc(id, t1, rest);
    Assoc(AFTER, t2, rest);
    Assoc(CHECK_FAILS, t3, rest);
    Assoc(HANDLER, t4, rest);
    Assoc(TYPE, t5, rest);
    Assoc(HANDLER, TYPE, t5 + rest);
    assert START_PRE == "starting" + EXEC_START_PRE;
    Assoc(SNP, "starting", EXEC_START_PRE);
    Assoc(VERIFY, EXEC_START_PRE, rest);
  }

  lemma CommandParts(exe: string, launch: string)
    ensures CHECK + (START + (exe + launch)) == REPLACE + (EXEC_START + (exe + launch))
  {
    var line := exe + launch;
    assert START == "with QEMU via execv" + EXEC_START;
    Assoc("with QEMU via execv", EXEC_START, line);
    Assoc(CHECK, "with QEMU via execv", EXEC_START + line);
  }

  lemma HeadIsSkipped(nodeId: nat, rest: string, marker: string)
    requires marker == EXEC_START || marker == EXEC_START_PRE
    ensures Behind(DESCRIPTION + (Show(nodeId) + (AFTER + (CHECK_FAILS + (UNIT_TEXT + (VERIFY + rest))))), marker) ==
            Behind(rest, marker)
  {
    TextsHaveNoKey();
    UnitTextHasNoKey();
    NumeralHasNoBlank(Show(nodeId));
    NoLineNoKey(Show(nodeId));
    KeyIsBehind(DESCRIPTION, Show(nodeId) + (AFTER + (CHECK_FAILS + (UNIT_TEXT + (VERIFY + rest)))), marker);
    KeyIsBehind(Show(nodeId), AFTER + (CHECK_FAILS + (UNIT_TEXT + (VERIFY + rest))), marker);
    KeyIsBehind(AFTER, CHECK_FAILS + (UNIT_TEXT + (VERIFY + rest)), marker);
    KeyIsBehind(CHECK_FAILS, UNIT_TEXT + (VERIFY + rest), marker);
    KeyIsBehind(UNIT_TEXT, VERIFY + rest, marker);
    KeyIsBehind(VERIFY, rest, marker);
  }

  lemma OtherKeyIsSkipped(rest: string)
    ensures Behind(EXEC_START_PRE + rest, EXEC_START) == Behind(rest, EXEC_START)
  {
    var tail := EXEC_START_PRE[1..];
    var s := EXEC_START_PRE + rest;
    assert s[10] == 'P' && EXEC_START[10] == '=';
    assert s[1..] == tail + rest;
    NoLineNoKey(tail);
    KeyIsBehind(tail, rest, EXEC_START);
  }

  lemma LaunchParts(exe: string, node: string, port: string, end: string)
    ensures exe + (LAUNCH + (INTERNAL + (node + (" " + (FLAG + (port + end)))))) ==
            (exe + " launch-internal " + node + " -p " + port) + end
  {
    assert LAUNCH + INTERNAL == " launch-internal " && " " + FLAG == " -p ";
    var t := port + end;
    Assoc(" ", FLAG, t);
    Assoc(LAUNCH, INTERNAL, node + (" -p " + t));
    Assoc(exe, " launch-internal ", node + (" -p " + t));
    Assoc(exe + " launch-internal ", node, " -p " + t);
    Assoc(exe + " launch-internal " + node, " -p ", t);
    Assoc(exe + " launch-internal " + node + " -p ", port, end);
  }

  lemma LaunchLine(exe: string, nodeId: nat, port: nat)
    requires '\n' !in exe
    ensures FirstLine(exe + Launch(nodeId, port)) == CommandText(exe, nodeId, port)
  {
    var line := CommandText(exe, nodeId, port);
    NumeralHasNoBlank(Show(nodeId));
    NumeralHasNoBlank(Show(port));
    LaunchParts(exe, Show(nodeId), Show(port), AFTER_PORT);
    LineBeforePort(line);
  }

  lemma LineBeforePort(line: string)
    requires '\n' !in line
    ensures FirstLine(line + AFTER_PORT) == line
  {
    var rest := AFTER_PORT[1..];
    assert AFTER_PORT[0] == '\n';
    assert AFTER_PORT == "\n" + rest;
    Assoc(line, "\n", rest);
    LineEnds(line, rest);
  }

  /**
   * The unit file of a node starts this executable with this node and this port, whatever the path, as
   * long as it is one line; and it checks with the same executable first.
   */
  lemma RenderedCommandIsRead(exe: string, nodeId: nat, port: nat)
    requires '\n' !in exe
    ensures StartedBy(Render(exe, nodeId, port)) == Some(Command(exe, nodeId, port))
    ensures Setting(Render(exe, nodeId, port), EXEC_START_PRE) == Some(exe + " check")
  {
    var behind := EXEC_START + (exe + Launch(nodeId, port));
    var middle := exe + (REPLACE + behind);
    CommandParts(exe, Launch(nodeId, port));
    HeadParts(nodeId, middle);
    assert Render(exe, nodeId, port) == Head(nodeId) + middle;
    HeadIsSkipped(nodeId, EXEC_START_PRE + middle, EXEC_START);
    HeadIsSkipped(nodeId, EXEC_START_PRE + middle, EXEC_START_PRE);
    OtherKeyIsSkipped(middle);
    NoLineNoKey(exe);
    CheckHasNoKey();
    KeyIsBehind(exe, REPLACE + behind, EXEC_START);
    KeyIsBehind(REPLACE, behind, EXEC_START);
    KeyAtStart(exe + Launch(nodeId, port), EXEC_START);
    KeyAtStart(middle, EXEC_START_PRE);
    LaunchLine(exe, nodeId, port);
    CommandIsParsed(exe, nodeId, port);
    CheckLine(exe, behind);
  }

  lemma KeyAtStart(rest: string, marker: string)
    ensures Behind(marker + rest, marker) == Some(rest)
  {
    assert marker <= marker + rest;
    assert (marker + rest)[|marker|..] == rest;
  }

  lemma CheckLine(exe: string, behind: string)
    requires '\n' !in exe
    ensures FirstLine(exe + (REPLACE + behind)) == exe + " check"
  {
    var rest := REPLACE[|" check\n"|..] + behind;
    assert REPLACE == " check" + "\n" + REPLACE[|" check\n"|..];
    assert exe + (REPLACE + behind) == (exe + " check") + "\n" + rest;
    LineEnds(exe + " check", rest);
  }

  /** After any add whose file was written, the node's unit starts that node, on the port that was chosen. */
  lemma AddedServiceStartsNode(units: HostServices.Units, exe: string, id: nat, port: Option<nat>,
                               bindable: nat -> bool, systemctlOk: bool)
    requires '\n' !in exe
    ensures var (units', r) := HostServices.Added(units, exe, id, port, bindable, true, systemctlOk);
            r.Success? ==> id in units' && StartedBy(units'[id]) == Some(Command(exe, id, r.value))
    ensures var (units', r) := HostServices.Added(units, exe, id, port, bindable, true, systemctlOk);
            port.Some? ==> id in units' && StartedBy(units'[id]) == Some(Command(exe, id, port.value))
  {
    var chosen := HostServices.ChoosePort(units, id, port, bindable);
    if chosen.Success? {
      RenderedCommandIsRead(exe, id, chosen.value);
    }
  }
}
