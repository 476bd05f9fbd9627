/**
 * `RaspberryPiController.process_command`: one received line in, one `OK:`/`ERROR:` response out,
 * plus the hardware requests it makes on the way (a servo write, a display update).
 * Whether a servo write succeeds is decided by the hardware; it is a parameter here.
 */
module Commands {
  import opened Wrappers
  import opened Text
  import Display

  datatype Servo = Servo1 | Servo2

  /** The side effects a command asks for, in the order it asks for them. */
  datatype Effect =
    | ShowText(text: string)             // `display_text(text)`, before ASCII conversion
    | ClearDisplay                       // `clear_oled()`
    | SetServo(servo: Servo, value: real) // `servoN.value = value`

  /** The responses `process_command` can return, one constructor per response string. */
  datatype Reply =
    | Connected | Disconnected | ServoMoved(servo: Servo, angle: nat) | OledDisplayed | OledCleared
    | ParseError(servo: Servo) | ControlFailed(servo: Servo) | InvalidAngle | UnknownCommand

  datatype Outcome = Outcome(reply: Reply, effects: seq<Effect>)

  predicate IsOk(r: Reply) {
    r.Connected? || r.Disconnected? || r.ServoMoved? || r.OledDisplayed? || r.OledCleared?
  }

  /** What follows `OK:` or `ERROR:` in each response line. */
  function Detail(r: Reply): string {
    match r
    case Connected => "CONNECTED"
    case Disconnected => "DISCONNECTED"
    case ServoMoved(k, angle) => ServoName(k) + ":" + NatToString(angle)
    case OledDisplayed => "OLED_DISPLAY"
    case OledCleared => "OLED_CLEARED"
    case ParseError(k) => ServoName(k) + "_PARSE_ERROR"
    case ControlFailed(k) => ServoName(k) + "_CONTROL_FAILED"
    case InvalidAngle => "INVALID_ANGLE"
    case UnknownCommand => "UNKNOWN_COMMAND"
  }

  /** The line sent back to the phone for each reply. */
  function ReplyText(r: Reply): (s: string)
    ensures IsOk(r) ==> "OK:" <= s
    ensures !IsOk(r) ==> "ERROR:" <= s
  {
    (if IsOk(r) then "OK:" else "ERROR:") + Detail(r)
  }

  function ParseMoved(k: Servo, digits: string): Option<Reply> {
    match ParseInt(digits)
    case Some(n) => if n >= 0 then Some(ServoMoved(k, n)) else None
    case None => None
  }

  function ParseOkDetail(d: string): Option<Reply> {
    if d == "CONNECTED" then Some(Connected)
    else if d == "DISCONNECTED" then Some(Disconnected)
    else if d == "OLED_DISPLAY" then Some(OledDisplayed)
    else if d == "OLED_CLEARED" then Some(OledCleared)
    else if "SERVO1:" <= d then ParseMoved(Servo1, d[7..])
    else if "SERVO2:" <= d then ParseMoved(Servo2, d[7..])
    else None
  }

  function ParseErrorDetail(d: string): Option<Reply> {
    if d == "INVALID_ANGLE" then Some(InvalidAngle)
    else if d == "UNKNOWN_COMMAND" then Some(UnknownCommand)
    else if d == "SERVO1_PARSE_ERROR" then Some(ParseError(Servo1))
    else if d == "SERVO2_PARSE_ERROR" then Some(ParseError(Servo2))
    else if d == "SERVO1_CONTROL_FAILED" then Some(ControlFailed(Servo1))
    else if d == "SERVO2_CONTROL_FAILED" then Some(ControlFailed(Servo2))
    else None
  }

  /** A left inverse of `ReplyText`, used to show that replies can be told apart. */
  function ParseReply(s: string): Option<Reply> {
    if "OK:" <= s then ParseOkDetail(s[3..])
    else if "ERROR:" <= s then ParseErrorDetail(s[6..])
    else None
  }

  /** A detail that starts with `SERVOk:` is read by servo k's branch. */
  lemma ParseOkServo(k: Servo, rest: string)
    ensures ParseOkDetail(ServoName(k) + ":" + rest) == ParseMoved(k, rest)
  {
    var d := ServoName(k) + ":" + rest;
    assert d[0] == 'S' && d[5] == (if k == Servo1 then '1' else '2');
    assert d[..7] == ServoName(k) + ":" && d[7..] == rest;
  }

  lemma ParseServoMoved(k: Servo, n: nat)
    ensures ParseOkDetail(Detail(ServoMoved(k, n))) == Some(ServoMoved(k, n))
  {
    ParseOkServo(k, NatToString(n));
    ParseMovedNat(k, n);
  }

  lemma ParseMovedNat(k: Servo, n: nat)
    ensures ParseMoved(k, NatToString(n)) == Some(ServoMoved(k, n))
  {
    ParseNatToString(n);
  }

  lemma ParseServoError(k: Servo)
    ensures ParseErrorDetail(Detail(ParseError(k))) == Some(ParseError(k))
  {
    match k
    case Servo1 => assert Detail(ParseError(k)) == "SERVO1_PARSE_ERROR";
    case Servo2 => assert Detail(ParseError(k)) == "SERVO2_PARSE_ERROR";
  }

  lemma ParseControlFailed(k: Servo)
    ensures ParseErrorDetail(Detail(ControlFailed(k))) == Some(ControlFailed(k))
  {
    match k
    case Servo1 => assert Detail(ControlFailed(k)) == "SERVO1_CONTROL_FAILED";
    case Servo2 => assert Detail(ControlFailed(k)) == "SERVO2_CONTROL_FAILED";
  }

  /** Every response line reads back as the reply it was made from, so no two replies share a line. */
  lemma ParseReplyText(r: Reply)
    ensures ParseReply(ReplyText(r)) == Some(r)
  {
    var s := ReplyText(r);
    if IsOk(r) {
      assert s[3..] == Detail(r);
    } else {
      assert s[0] == 'E' && s[6..] == Detail(r);
    }
    match r
    case ServoMoved(k, n) => ParseServoMoved(k, n);
    case ParseError(k) => ParseServoError(k);
    case ControlFailed(k) => ParseControlFailed(k);
    case _ =>
  }

  lemma ReplyTextInjective(a: Reply, b: Reply)
    ensures ReplyText(a) == ReplyText(b) ==> a == b
  {
    ParseReplyText(a);
    ParseReplyText(b);
  }

  /** The command word of each servo, also used in its responses. */
  function ServoName(k: Servo): string {
    match k
    case Servo1 => "SERVO1"
    case Servo2 => "SERVO2"
  }

  /** The status line shown after a servo move (`舵机1`, `舵机2`). */
  function ServoLabel(k: Servo): string {
    match k
    case Servo1 => "舵机1"
    case Servo2 => "舵机2"
  }

  // ---------------------------------------------------------------------------
  // control_servo1 / control_servo2: angle to servo value

  /** `max(-1, min(1, x))` */
  function Clamp(x: real): (r: real)
    ensures -1.0 <= r <= 1.0
    ensures -1.0 <= x <= 1.0 ==> r == x
    ensures x < -1.0 ==> r == -1.0
    ensures x > 1.0 ==> r == 1.0
  {
    if x < -1.0 then -1.0 else if x > 1.0 then 1.0 else x
  }

  /** The value written for `angle`: 0, 90 and 180 degrees become -1, 0 and 1. */
  function ServoValue(angle: int): (v: real)
    ensures -1.0 <= v <= 1.0
  {
    Clamp((angle - 90) as real / 90.0)
  }

  /** Inside 0..180 the clamp never fires, and the angle can be read back from the value. */
  lemma ServoValueExact(angle: int)
    requires 0 <= angle <= 180
    ensures ServoValue(angle) == (angle - 90) as real / 90.0
    ensures 90.0 + 90.0 * ServoValue(angle) == angle as real
  {
  }

  /** A larger angle never turns the servo the other way. */
  lemma ServoValueMonotone(a: int, b: int)
    requires a <= b
    ensures ServoValue(a) <= ServoValue(b)
  {
    assert (a - 90) as real / 90.0 <= (b - 90) as real / 90.0;
  }

  /** Different angles in 0..180 give different values. */
  lemma ServoValueInjective(a: int, b: int)
    requires 0 <= a <= 180 && 0 <= b <= 180 && ServoValue(a) == ServoValue(b)
    ensures a == b
  {
    ServoValueExact(a);
    ServoValueExact(b);
  }

  // ---------------------------------------------------------------------------
  // process_command

  /** The servo branch once `int(command.split(":")[1])` has been tried (`None`: it raised). */
  function AngleOutcome(k: Servo, parsed: Option<int>, writeOk: bool): (r: Outcome)
    ensures !IsOk(r.reply) ==> r.effects == []
    ensures r.reply.ServoMoved? <==> parsed.Some? && 0 <= parsed.value <= 180 && writeOk
    ensures r.reply.ServoMoved? ==>
      && r.reply == ServoMoved(k, parsed.value)
      && r.effects == [SetServo(k, ServoValue(parsed.value)),
                       ShowText(ServoLabel(k) + ": " + NatToString(parsed.value) + "°")]
    ensures parsed.None? ==> r == Outcome(ParseError(k), [])
    ensures parsed.Some? && !(0 <= parsed.value <= 180) ==> r == Outcome(InvalidAngle, [])
    ensures parsed.Some? && 0 <= parsed.value <= 180 && !writeOk ==> r == Outcome(ControlFailed(k), [])
  {
    match parsed
    case None => Outcome(ParseError(k), [])
    case Some(angle) =>
      if 0 <= angle <= 180 then
        if writeOk then
          Outcome(ServoMoved(k, angle),
                  [SetServo(k, ServoValue(angle)), ShowText(ServoLabel(k) + ": " + NatToString(angle) + "°")])
        else Outcome(ControlFailed(k), [])
      else Outcome(InvalidAngle, [])
  }

  /** The text between the first and the second colon, if the line has a colon. */
  function AngleField(c: string): Option<string> {
    var parts := Split(c, ':');
    if |parts| >= 2 then Some(parts[1]) else None
  }

  /** The `SERVO1:` / `SERVO2:` branch on the stripped line `c`; a missing field is the `IndexError` case. */
  function ServoCommand(k: Servo, c: string, writeOk: bool): Outcome {
    match AngleField(c)
    case None => AngleOutcome(k, None, writeOk)
    case Some(field) => AngleOutcome(k, ParseInt(field), writeOk)
  }

  /** The branch chain on the stripped line `c`: the first test that holds decides. */
  function Dispatch(c: string, writeOk: bool): (r: Outcome)
    ensures !IsOk(r.reply) ==> r.effects == []
    ensures |r.effects| <= 2
    ensures forall e :: e in r.effects && e.SetServo? ==> -1.0 <= e.value <= 1.0
  {
    if c == "CONNECT" then Outcome(Connected, [ShowText("蓝牙已连接")])
    else if c == "DISCONNECT" then Outcome(Disconnected, [ShowText("蓝牙已断开")])
    else if "SERVO1:" <= c then ServoCommand(Servo1, c, writeOk)
    else if "SERVO2:" <= c then ServoCommand(Servo2, c, writeOk)
    else if "OLED:" <= c then Outcome(OledDisplayed, [ShowText(c[5..])])
    else if c == "OLED_CLEAR" then Outcome(OledCleared, [ClearDisplay])
    else Outcome(UnknownCommand, [])
  }

  /** The response to one received line, and what it asks of the hardware. */
  function ProcessCommand(command: string, writeOk: bool): (r: Outcome)
    ensures !IsOk(r.reply) ==> r.effects == []
    ensures |r.effects| <= 2
    ensures forall e :: e in r.effects && e.SetServo? ==> -1.0 <= e.value <= 1.0
  {
    Dispatch(Strip(command), writeOk)
  }

  // ---------------------------------------------------------------------------
  // Dispatch

  /** The lines some branch other than the unknown-command branch takes. */
  predicate Recognised(c: string) {
    c == "CONNECT" || c == "DISCONNECT" || c == "OLED_CLEAR"
    || "SERVO1:" <= c || "SERVO2:" <= c || "OLED:" <= c
  }

  /** Dispatch looks at the stripped line only. */
  lemma DispatchOnStripped(command: string, writeOk: bool)
    ensures ProcessCommand(command, writeOk) == ProcessCommand(Strip(command), writeOk)
  {
    StripIdempotent(command);
  }

  /** `ERROR:UNKNOWN_COMMAND` is answered exactly to the lines no branch recognises. */
  lemma UnknownIffUnrecognised(command: string, writeOk: bool)
    ensures ProcessCommand(command, writeOk).reply == UnknownCommand <==> !Recognised(Strip(command))
  {
  }

  /** The three exact-match commands. */
  lemma ExactDispatch(writeOk: bool)
    ensures Dispatch("CONNECT", writeOk) == Outcome(Connected, [ShowText("蓝牙已连接")])
    ensures Dispatch("DISCONNECT", writeOk) == Outcome(Disconnected, [ShowText("蓝牙已断开")])
    ensures Dispatch("OLED_CLEAR", writeOk) == Outcome(OledCleared, [ClearDisplay])
  {
    assert "OLED_CLEAR"[4] != "OLED:"[4];
  }

  /** The exact-match commands are recognised with any surrounding whitespace. */
  lemma ExactCommands(command: string, writeOk: bool)
    ensures Strip(command) == "CONNECT" ==>
      ProcessCommand(command, writeOk) == Outcome(Connected, [ShowText("蓝牙已连接")])
    ensures Strip(command) == "DISCONNECT" ==>
      ProcessCommand(command, writeOk) == Outcome(Disconnected, [ShowText("蓝牙已断开")])
    ensures Strip(command) == "OLED_CLEAR" ==>
      ProcessCommand(command, writeOk) == Outcome(OledCleared, [ClearDisplay])
  {
    ExactDispatch(writeOk);
  }

  /** `CONNECT` puts `Connected` on the screen: the status phrase is converted before its longer variant. */
  lemma ConnectShowsConnected(writeOk: bool, shown: string)
    requires shown == "蓝牙已连接"
    ensures ProcessCommand("CONNECT", writeOk).effects == [ShowText(shown)]
    ensures Display.AsciiText(shown) == "Connected"
  {
    StripUnpadded("CONNECT");
    ExactDispatch(writeOk);
    Display.ConnectedStatus(shown);
  }

  /** `OLED:t` shows the stripped line minus its five-character prefix. */
  lemma OledShowsRest(command: string, writeOk: bool)
    requires "OLED:" <= Strip(command)
    ensures ProcessCommand(command, writeOk) == Outcome(OledDisplayed, [ShowText(Strip(command)[5..])])
  {
    var c := Strip(command);
    assert c[0] == 'O';
  }

  /** Matching is case-sensitive: lower-case commands are unknown. */
  lemma CaseSensitive(writeOk: bool)
    ensures ProcessCommand("connect", writeOk).reply == UnknownCommand
  {
    StripUnpadded("connect");
    assert !Recognised("connect");
  }

  // ---------------------------------------------------------------------------
  // Servo commands

  /** `SERVOk:` followed by a field and an optional `:`-led tail: the field is what gets parsed. */
  lemma ServoField(k: Servo, field: string, tail: string)
    requires ':' !in field && (tail == [] || tail[0] == ':')
    ensures AngleField(ServoName(k) + ":" + field + tail) == Some(field)
  {
    var a := ServoName(k);
    assert ':' !in a;
    assert a + ":" + field + tail == a + [':'] + (field + tail);
    SplitAt(a, field + tail, ':');
    SplitHead(field, tail, ':');
  }

  /** A `SERVOk:` line is handled by servo k's branch. */
  lemma ServoDispatch(k: Servo, c: string, writeOk: bool)
    requires ServoName(k) + ":" <= c
    ensures Dispatch(c, writeOk) == ServoCommand(k, c, writeOk)
  {
    assert c[0] == 'S' && c[5] == (if k == Servo1 then '1' else '2');
    assert c != "CONNECT" && c != "DISCONNECT";
  }

  /** A `SERVOk:` line without surrounding whitespace is handled by servo k's branch. */
  lemma ServoBranch(k: Servo, c: string, writeOk: bool)
    requires Unpadded(c) && ServoName(k) + ":" <= c
    ensures ProcessCommand(c, writeOk) == ServoCommand(k, c, writeOk)
  {
    StripUnpadded(c);
    ServoDispatch(k, c, writeOk);
  }

  /** How a `SERVOk:` line with first field `field` is answered, before and after the field is parsed. */
  lemma ServoLine(k: Servo, field: string, tail: string, writeOk: bool)
    requires ':' !in field && (tail == [] || tail[0] == ':')
    requires Unpadded(ServoName(k) + ":" + field + tail)
    ensures ProcessCommand(ServoName(k) + ":" + field + tail, writeOk) == AngleOutcome(k, ParseInt(field), writeOk)
  {
    var c := ServoName(k) + ":" + field + tail;
    assert c == (ServoName(k) + ":") + (field + tail);
    ServoBranch(k, c, writeOk);
    ServoField(k, field, tail);
  }

  /**
   * A `SERVOk:` line whose field `int()` reads as n in 0..180, with a successful write, answers
   * `OK:SERVOk:n`, writes (n - 90) / 90 and shows the angle. The field may have leading zeros, a sign
   * or underscores (`090`, `+45`, `4_5`); only the field up to a second colon counts.
   */
  lemma ServoAccepted(k: Servo, field: string, tail: string, n: nat)
    requires ':' !in field && (tail == [] || tail[0] == ':')
    requires Unpadded(ServoName(k) + ":" + field + tail)
    requires ParseInt(field) == Some(n) && n <= 180
    ensures ProcessCommand(ServoName(k) + ":" + field + tail, true) ==
      Outcome(ServoMoved(k, n),
              [SetServo(k, (n - 90) as real / 90.0), ShowText(ServoLabel(k) + ": " + NatToString(n) + "°")])
  {
    ServoLine(k, field, tail, true);
    ServoValueExact(n);
  }

  /** The same kind of line with a failed write answers `ERROR:SERVOk_CONTROL_FAILED` and asks for nothing more. */
  lemma ServoWriteFailed(k: Servo, field: string, tail: string, n: nat)
    requires ':' !in field && (tail == [] || tail[0] == ':')
    requires Unpadded(ServoName(k) + ":" + field + tail)
    requires ParseInt(field) == Some(n) && n <= 180
    ensures ProcessCommand(ServoName(k) + ":" + field + tail, false) == Outcome(ControlFailed(k), [])
  {
    ServoLine(k, field, tail, false);
  }

  /** The canonical form `SERVOk:n`, optionally followed by `:` and text that does not end in whitespace. */
  lemma ServoCanonical(k: Servo, n: nat, tail: string, writeOk: bool)
    requires n <= 180 && (tail == [] || (tail[0] == ':' && !IsSpace(tail[|tail| - 1])))
    ensures ProcessCommand(ServoName(k) + ":" + NatToString(n) + tail, writeOk) ==
      if writeOk then
        Outcome(ServoMoved(k, n),
                [SetServo(k, (n - 90) as real / 90.0), ShowText(ServoLabel(k) + ": " + NatToString(n) + "°")])
      else Outcome(ControlFailed(k), [])
  {
    var s := NatToString(n);
    assert ':' !in s by { assert forall i :: 0 <= i < |s| ==> s[i] != ':'; }
    ParseNatToString(n);
    if writeOk {
      ServoAccepted(k, s, tail, n);
    } else {
      ServoWriteFailed(k, s, tail, n);
    }
  }

  /** An integer outside 0..180 answers `ERROR:INVALID_ANGLE` and moves nothing. */
  lemma ServoOutOfRange(k: Servo, field: string, tail: string, writeOk: bool)
    requires ':' !in field && (tail == [] || tail[0] == ':')
    requires Unpadded(ServoName(k) + ":" + field + tail)
    requires ParseInt(field).Some? && !(0 <= ParseInt(field).value <= 180)
    ensures ProcessCommand(ServoName(k) + ":" + field + tail, writeOk) == Outcome(InvalidAngle, [])
  {
    ServoLine(k, field, tail, writeOk);
  }

  /** A field `int()` rejects answers `ERROR:SERVOk_PARSE_ERROR` and moves nothing. */
  lemma ServoUnparsable(k: Servo, field: string, tail: string, writeOk: bool)
    requires ':' !in field && (tail == [] || tail[0] == ':')
    requires Unpadded(ServoName(k) + ":" + field + tail)
    requires ParseInt(field) == None
    ensures ProcessCommand(ServoName(k) + ":" + field + tail, writeOk) == Outcome(ParseError(k), [])
  {
    ServoLine(k, field, tail, writeOk);
  }

  /** A line that starts with `SERVOk:` always has a second field, so the `IndexError` handler never runs. */
  lemma ServoFieldPresent(k: Servo, c: string)
    requires ServoName(k) + ":" <= c
    ensures AngleField(c).Some?
  {
    var rest := c[|ServoName(k)| + 1..];
    assert c == ServoName(k) + [':'] + rest;
    assert ':' !in ServoName(k);
    SplitAt(ServoName(k), rest, ':');
  }

  /** The lines the phone app sends, and the malformed ones the handlers exist for. */
  lemma ServoExample45()
    ensures ProcessCommand("SERVO2:45", true).reply == ServoMoved(Servo2, 45)
  {
    FortyFive();
    assert "SERVO2:45" == ServoName(Servo2) + ":" + NatToString(45) + "";
    ServoCanonical(Servo2, 45, "", true);
  }

  lemma FortyFive()
    ensures NatToString(45) == "45"
  {
    assert NatToString(4) == "4";
  }

  lemma ServoExample90()
    ensures ProcessCommand("SERVO1:90:x", true).reply == ServoMoved(Servo1, 90)
  {
    assert NatToString(90) == "90" by { assert NatToString(9) == "9"; }
    assert "SERVO1:90:x" == ServoName(Servo1) + ":" + NatToString(90) + ":x";
    ServoCanonical(Servo1, 90, ":x", true);
  }

  /** `int()` accepts leading zeros, so `SERVO1:090` turns servo 1 to the centre like `SERVO1:90`. */
  lemma ServoExampleLeadingZero(field: string)
    requires field == "090"
    ensures ProcessCommand("SERVO1:" + field, true).reply == ServoMoved(Servo1, 90)
    ensures ProcessCommand("SERVO1:" + field, true).effects[0] == SetServo(Servo1, 0.0)
  {
    ParseDigits(field);
    var a, b := field[..1], field[..2];
    assert a[..0] == [] && b[..1] == a && field[..2] == b;
    assert DigitsValue(a) == 0;
    assert DigitsValue(b) == 9;
    assert DigitsValue(field) == 90;
    assert "SERVO1:" + field == ServoName(Servo1) + ":" + field + "";
    ServoAccepted(Servo1, field, "", 90);
  }

  lemma ServoExampleEmpty(writeOk: bool)
    ensures ProcessCommand("SERVO1:", writeOk).reply == ParseError(Servo1)
  {
    assert Strip("") == "";
    assert "SERVO1:" == ServoName(Servo1) + ":" + "" + "";
    ServoUnparsable(Servo1, "", "", writeOk);
  }

  lemma ServoExampleLetters(writeOk: bool)
    ensures ProcessCommand("SERVO1:abc", writeOk).reply == ParseError(Servo1)
  {
    ParseForeign("abc", 0);
    assert "SERVO1:abc" == ServoName(Servo1) + ":" + "abc" + "";
    ServoUnparsable(Servo1, "abc", "", writeOk);
  }

  lemma ServoExample200(writeOk: bool)
    ensures ProcessCommand("SERVO2:200", writeOk).reply == InvalidAngle
  {
    assert NatToString(200) == "200" by { assert NatToString(20) == "20" by { assert NatToString(2) == "2"; } }
    ParseNatToString(200);
    assert "SERVO2:200" == ServoName(Servo2) + ":" + "200" + "";
    ServoOutOfRange(Servo2, "200", "", writeOk);
  }
}
