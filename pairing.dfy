/**
 * The controller's pairing agent: a background worker that drives `bluetoothctl`, reads its output
 * line by line and answers pairing prompts, guarded by the `pairing_active` flag
 * (`start_pairing_agent`, `_pairing_agent_worker`, `stop_pairing_agent`).
 * The child process is a handle; its output is a sequence of read results.
 */
module Pairing {
  import opened Wrappers
  import opened Text

  /** The PIN the controller answers with (`self.pin_code`). */
  const PinCode: string := "0000"

  /** The directives sent to `bluetoothctl` right after it starts, one per line. */
  const SetupDirectives: seq<string> := ["agent on\n", "default-agent\n", "pairable on\n", "discoverable on\n"]

  // ---------------------------------------------------------------------------
  // re.search(r'Confirm passkey (\d+)', line)

  const PasskeyPrompt: string := "Confirm passkey "

  /** The longest run of digits at the start of `s`. */
  function DigitRun(s: string): (r: string)
    ensures r <= s && AllDigits(r)
    ensures |r| == |s| || !IsDigit(s[|r|])
  {
    if s != [] && IsDigit(s[0]) then [s[0]] + DigitRun(s[1..]) else []
  }

  /** A string of digits is its own digit run. */
  lemma DigitRunAll(s: string)
    requires AllDigits(s)
    ensures DigitRun(s) == s
  {
    var r := DigitRun(s);
    assert |r| == |s|;
  }

  /**
   * The first group of the leftmost match of `Confirm passkey (\d+)`: the maximal digit run after the
   * first `Confirm passkey ` that is followed by a digit.
   */
  function FindPasskey(s: string): (r: Option<string>)
    ensures r.Some? ==> |r.value| > 0 && AllDigits(r.value) && Contains(s, PasskeyPrompt + r.value)
    decreases |s|
  {
    if PasskeyPrompt <= s && |s| > |PasskeyPrompt| && IsDigit(s[|PasskeyPrompt|]) then
      var d := DigitRun(s[|PasskeyPrompt|..]);
      assert s[..|PasskeyPrompt| + |d|] == PasskeyPrompt + d;
      ContainsAt(s, PasskeyPrompt + d, 0);
      Some(d)
    else if s == [] then None
    else FindPasskey(s[1..])
  }

  /** The match is found wherever it sits: a prompt followed by a digit anywhere means a passkey. */
  lemma {:induction false} FindPasskeyAt(s: string, k: nat)
    requires k + |PasskeyPrompt| < |s| && s[k..k + |PasskeyPrompt|] == PasskeyPrompt
    requires IsDigit(s[k + |PasskeyPrompt|])
    ensures FindPasskey(s).Some?
    decreases k
  {
    if k > 0 && !(PasskeyPrompt <= s && |s| > |PasskeyPrompt| && IsDigit(s[|PasskeyPrompt|])) {
      assert s[1..][k - 1..k - 1 + |PasskeyPrompt|] == s[k..k + |PasskeyPrompt|];
      FindPasskeyAt(s[1..], k - 1);
    }
  }

  /** Position `k` of `s` starts the prompt followed by a digit: a place where the pattern matches. */
  predicate PromptAt(s: string, k: nat) {
    k + |PasskeyPrompt| < |s| && s[k..k + |PasskeyPrompt|] == PasskeyPrompt && IsDigit(s[k + |PasskeyPrompt|])
  }

  /** Dropping the first character moves every match one place to the left. */
  lemma PromptShift(s: string, j: nat)
    requires s != []
    ensures PromptAt(s[1..], j) <==> PromptAt(s, j + 1)
  {
    if j + 1 + |PasskeyPrompt| < |s| {
      assert s[1..][j..j + |PasskeyPrompt|] == s[j + 1..j + 1 + |PasskeyPrompt|];
      assert s[1..][j + |PasskeyPrompt|] == s[j + 1 + |PasskeyPrompt|];
    }
  }

  /**
   * The search returns the leftmost match, with the maximal digit run after it: at the first position
   * `k` where the prompt is followed by a digit, the result is all the digits from there on.
   */
  lemma {:induction false} FindPasskeyLeftmost(s: string, k: nat)
    requires PromptAt(s, k)
    requires forall j :: 0 <= j < k ==> !PromptAt(s, j)
    ensures FindPasskey(s) == Some(DigitRun(s[k + |PasskeyPrompt|..]))
    decreases k
  {
    if k == 0 {
      assert s[..|PasskeyPrompt|] == PasskeyPrompt;
    } else {
      assert !PromptAt(s, 0);
      assert !(PasskeyPrompt <= s && |s| > |PasskeyPrompt| && IsDigit(s[|PasskeyPrompt|])) by {
        if PasskeyPrompt <= s && |s| > |PasskeyPrompt| {
          assert s[0..|PasskeyPrompt|] == PasskeyPrompt;
        }
      }
      PromptShift(s, k - 1);
      forall j | 0 <= j < k - 1
        ensures !PromptAt(s[1..], j)
      {
        PromptShift(s, j);
      }
      FindPasskeyLeftmost(s[1..], k - 1);
      assert s[1..][k - 1 + |PasskeyPrompt|..] == s[k + |PasskeyPrompt|..];
    }
  }

  /** Where the prompt is never followed by a digit, there is no passkey. */
  lemma {:induction false} FindPasskeyNone(s: string)
    requires forall j :: 0 <= j < |s| ==> !PromptAt(s, j)
    ensures FindPasskey(s) == None
    decreases |s|
  {
    if s != [] {
      assert !(PasskeyPrompt <= s && |s| > |PasskeyPrompt| && IsDigit(s[|PasskeyPrompt|])) by {
        if PasskeyPrompt <= s && |s| > |PasskeyPrompt| {
          assert s[0..|PasskeyPrompt|] == PasskeyPrompt;
          assert !PromptAt(s, 0);
        }
      }
      forall j | 0 <= j < |s[1..]|
        ensures !PromptAt(s[1..], j)
      {
        PromptShift(s, j);
      }
      FindPasskeyNone(s[1..]);
    }
  }

  // ---------------------------------------------------------------------------
  // Line classification

  /** What a line of `bluetoothctl` output announces, by the first test in the chain that holds. */
  datatype PairingEvent =
    | PinRequested
    | PasskeyConfirm(passkey: Option<string>)
    | ConfirmationRequested
    | AgentPasskeyConfirm(passkey: Option<string>)
    | AuthorizationRequested
    | Succeeded
    | Failed
    | Canceled
    | DeviceDiscovered
    | Unrecognized

  /** The `if/elif` chain of the worker loop, on a stripped line. */
  function Classify(line: string): PairingEvent {
    if Contains(line, "Request PIN code") then PinRequested
    else if Contains(line, "Confirm passkey") then PasskeyConfirm(FindPasskey(line))
    else if Contains(line, "Request confirmation") then ConfirmationRequested
    else if Contains(line, "[agent] Confirm passkey") then AgentPasskeyConfirm(FindPasskey(line))
    else if Contains(line, "Authorize service") then AuthorizationRequested
    else if Contains(line, "Pairing successful") then Succeeded
    else if Contains(line, "Failed to pair") then Failed
    else if Contains(line, "Request canceled") then Canceled
    else if Contains(line, "NEW") && Contains(line, "Device") then DeviceDiscovered
    else Unrecognized
  }

  /**
   * A directive written to the child's standard input, a message put on the display, or a request that
   * the child stop (`terminate()`, followed by `kill()` when waiting for it fails).
   */
  datatype AgentAction = Write(directive: string) | Show(text: string) | Terminate(process: Process)

  /** What the worker does for one event, in order. */
  function Respond(pin: string, e: PairingEvent): seq<AgentAction> {
    match e
    case PinRequested => [Write(pin + "\n"), Show("PIN: " + pin + "\nSent")]
    case PasskeyConfirm(key) =>
      (if key.Some? then [Show("Confirm:\n" + key.value)] else []) + [Write("yes\n")]
    case ConfirmationRequested => [Write("yes\n"), Show("Confirming\nPairing...")]
    case AgentPasskeyConfirm(key) =>
      (if key.Some? then [Show("Key: " + key.value + "\nConfirm on phone")] else []) + [Write("yes\n")]
    case AuthorizationRequested => [Write("yes\n"), Show("Service\nAuthorized")]
    case Succeeded => [Show("Pairing\nSuccess!")]
    case Failed => [Show("Pairing\nFailed")]
    case Canceled => [Show("Pairing\nCanceled")]
    case DeviceDiscovered => [Show("Device Found\nPairing...")]
    case Unrecognized => []
  }

  /** One line read from the child: stripped, then classified (an empty line does nothing). */
  function LineActions(pin: string, raw: string): seq<AgentAction> {
    var line := Strip(raw);
    if line == [] then [] else Respond(pin, Classify(line))
  }

  /** A line without surrounding whitespace is classified as it is. */
  lemma LineActionsUnpadded(pin: string, line: string)
    requires line != [] && Unpadded(line)
    ensures LineActions(pin, line) == Respond(pin, Classify(line))
  {
    StripUnpadded(line);
  }

  /** The directives among `actions`, in order. */
  function Writes(actions: seq<AgentAction>): (w: seq<string>)
    ensures |w| <= |actions|
  {
    if actions == [] then []
    else (if actions[0].Write? then [actions[0].directive] else []) + Writes(actions[1..])
  }

  lemma {:induction false} WritesAppend(a: seq<AgentAction>, b: seq<AgentAction>)
    ensures Writes(a + b) == Writes(a) + Writes(b)
    decreases |a|
  {
    if a == [] {
      assert a + b == b;
    } else {
      assert (a + b)[0] == a[0] && (a + b)[1..] == a[1..] + b;
      WritesAppend(a[1..], b);
    }
  }

  /** The directives are exactly the payloads of the write actions. */
  lemma {:induction false} WritesMembers(actions: seq<AgentAction>, d: string)
    ensures d in Writes(actions) <==> Write(d) in actions
    decreases |actions|
  {
    if actions != [] {
      WritesMembers(actions[1..], d);
      assert actions == [actions[0]] + actions[1..];
    }
  }

  /** Lines that ask for consent. */
  predicate AsksConsent(line: string) {
    Contains(line, "Confirm passkey") || Contains(line, "Request confirmation") || Contains(line, "Authorize service")
  }

  /**
   * The directive written for a line: the PIN for a PIN request, `yes` for any consent prompt, nothing
   * otherwise; never more than one.
   */
  lemma LineWrites(pin: string, raw: string)
    ensures Writes(LineActions(pin, raw)) ==
      if Contains(Strip(raw), "Request PIN code") then [pin + "\n"]
      else if AsksConsent(Strip(raw)) then ["yes\n"]
      else []
  {
    var line := Strip(raw);
    if line == [] {
      ContainsChar(line, "Request PIN code", 0);
      ContainsChar(line, "Confirm passkey", 0);
      ContainsChar(line, "Request confirmation", 0);
      ContainsChar(line, "Authorize service", 0);
    } else {
      EventWrites(pin, Classify(line));
      ClassifyConsent(line);
    }
  }

  /** The events that are answered with `yes`. */
  predicate Consent(e: PairingEvent) {
    e.PasskeyConfirm? || e.ConfirmationRequested? || e.AgentPasskeyConfirm? || e.AuthorizationRequested?
  }

  /** The directive written for each event. */
  lemma EventWrites(pin: string, e: PairingEvent)
    ensures Writes(Respond(pin, e)) ==
      if e.PinRequested? then [pin + "\n"] else if Consent(e) then ["yes\n"] else []
  {
    match e
    case PasskeyConfirm(key) =>
      WritesAppend(if key.Some? then [Show("Confirm:\n" + key.value)] else [], [Write("yes\n")]);
    case AgentPasskeyConfirm(key) =>
      WritesAppend(if key.Some? then [Show("Key: " + key.value + "\nConfirm on phone")] else [], [Write("yes\n")]);
    case _ =>
  }

  /** A PIN request comes first; a consent event is any other line that asks for consent. */
  lemma ClassifyConsent(line: string)
    ensures Classify(line).PinRequested? <==> Contains(line, "Request PIN code")
    ensures Consent(Classify(line)) <==> !Contains(line, "Request PIN code") && AsksConsent(line)
  {
    AgentBranchUnreachable(line);
  }

  lemma AtMostOneWrite(pin: string, raw: string)
    ensures |Writes(LineActions(pin, raw))| <= 1
  {
    LineWrites(pin, raw);
  }

  /** A line with `[agent] Confirm passkey` also contains `Confirm passkey`, so the earlier branch takes it. */
  lemma AgentBranchUnreachable(line: string)
    ensures !Classify(line).AgentPasskeyConfirm?
  {
    if Contains(line, "[agent] Confirm passkey") {
      assert "[agent] Confirm passkey" == "[agent] " + "Confirm passkey" + "";
      ContainsInner(line, "[agent] ", "Confirm passkey", "");
    }
  }

  /** A passkey prompt is always confirmed, and the key is shown exactly when the pattern matches. */
  lemma PasskeyPromptConfirmed(pin: string, raw: string)
    requires !Contains(Strip(raw), "Request PIN code") && Contains(Strip(raw), "Confirm passkey")
    ensures LineActions(pin, raw) ==
      match FindPasskey(Strip(raw))
      case Some(key) => [Show("Confirm:\n" + key), Write("yes\n")]
      case None => [Write("yes\n")]
  {
    ContainsChar(Strip(raw), "Confirm passkey", 0);
  }

  /** The outcome notices only update the display. */
  lemma NoticesWriteNothing(pin: string, raw: string)
    requires Classify(Strip(raw)) in {Succeeded, Failed, Canceled, DeviceDiscovered, Unrecognized}
    ensures Writes(LineActions(pin, raw)) == []
  {
    LineWrites(pin, raw);
  }

  /** The digits after the prompt are the passkey (the line is a parameter equal to a literal). */
  lemma PasskeyFound(s: string)
    requires s == "Confirm passkey 123456"
    ensures FindPasskey(s) == Some("123456")
  {
    assert s[..|PasskeyPrompt|] == PasskeyPrompt && s[|PasskeyPrompt|..] == "123456";
    DigitRunAll("123456");
  }

  /** A passkey prompt is classified with its key. */
  lemma PasskeyClassified(s: string)
    requires s == "Confirm passkey 123456"
    ensures Classify(s) == PasskeyConfirm(Some("123456"))
  {
    ContainsChar(s, "Request PIN code", 0);
    assert 'R' !in s;
    assert s[..15] == "Confirm passkey";
    ContainsAt(s, "Confirm passkey", 0);
    PasskeyFound(s);
  }

  // ---------------------------------------------------------------------------
  // The worker loop

  /** One result of `stdout.readline()` on the child, or the child having exited (`poll()` not `None`). */
  datatype AgentInput = Line(raw: string) | ReadError | Exited

  /** An empty read (end of file), a read error or an exit. */
  predicate EndsRun(x: AgentInput) {
    !x.Line? || x.raw == []
  }

  /**
   * Everything the monitoring loop does for a run of read results: it stops at the first empty read
   * (end of file), read error or exit; when the inputs run out without one, it is still reading.
   */
  function MonitorRun(pin: string, inputs: seq<AgentInput>): seq<AgentAction>
    decreases |inputs|
  {
    if inputs == [] then []
    else match inputs[0]
      case Line(raw) => if raw == [] then [] else LineActions(pin, raw) + MonitorRun(pin, inputs[1..])
      case ReadError => []
      case Exited => []
  }

  /** One step of the run: an end event ends it, a line is answered and the run goes on. */
  lemma MonitorRunFrom(pin: string, inputs: seq<AgentInput>, i: nat)
    requires i < |inputs|
    ensures MonitorRun(pin, inputs[i..]) ==
      if EndsRun(inputs[i]) then [] else LineActions(pin, inputs[i].raw) + MonitorRun(pin, inputs[i + 1..])
  {
    assert inputs[i..][0] == inputs[i] && inputs[i..][1..] == inputs[i + 1..];
  }

  /** The monitoring loop's invariant: what is logged so far and what the rest leads to make up the run. */
  predicate Tracks(log0: seq<AgentAction>, log: seq<AgentAction>, pin: string, inputs: seq<AgentInput>, i: nat) {
    i <= |inputs| && log + MonitorRun(pin, inputs[i..]) == log0 + MonitorRun(pin, inputs)
  }

  /** The monitoring loop's invariant is kept by answering the next line. */
  lemma MonitorStep(log0: seq<AgentAction>, log: seq<AgentAction>, pin: string, inputs: seq<AgentInput>, i: nat)
    requires Tracks(log0, log, pin, inputs, i) && i < |inputs| && !EndsRun(inputs[i])
    ensures Tracks(log0, log + LineActions(pin, inputs[i].raw), pin, inputs, i + 1)
  {
    MonitorRunFrom(pin, inputs, i);
    AppendShift(log, LineActions(pin, inputs[i].raw), MonitorRun(pin, inputs[i + 1..]), log0 + MonitorRun(pin, inputs));
  }

  /** When the inputs run out or the run ends, the loop has done everything. */
  lemma MonitorEnd(log0: seq<AgentAction>, log: seq<AgentAction>, pin: string, inputs: seq<AgentInput>, i: nat)
    requires Tracks(log0, log, pin, inputs, i) && (i == |inputs| || EndsRun(inputs[i]))
    ensures log == log0 + MonitorRun(pin, inputs)
  {
    if i < |inputs| {
      MonitorRunFrom(pin, inputs, i);
    } else {
      assert inputs[i..] == [];
    }
    assert log + [] == log;
  }

  /** Lines after the end of the run are never acted on. */
  lemma {:induction false} MonitorStopsAtEnd(pin: string, inputs: seq<AgentInput>, i: nat)
    requires i < |inputs| && EndsRun(inputs[i])
    ensures MonitorRun(pin, inputs) == MonitorRun(pin, inputs[..i])
    decreases i
  {
    if i == 0 {
    } else {
      assert inputs[1..][i - 1] == inputs[i];
      MonitorStopsAtEnd(pin, inputs[1..], i - 1);
      assert inputs[..i][1..] == inputs[1..][..i - 1];
    }
  }

  /** Every directive the loop writes is the PIN or `yes`. */
  lemma {:induction false} MonitorWritesOnlyAnswers(pin: string, inputs: seq<AgentInput>)
    ensures forall w :: w in Writes(MonitorRun(pin, inputs)) ==> w == pin + "\n" || w == "yes\n"
    decreases |inputs|
  {
    if inputs != [] && inputs[0].Line? && inputs[0].raw != [] {
      var raw := inputs[0].raw;
      LineWrites(pin, raw);
      WritesAppend(LineActions(pin, raw), MonitorRun(pin, inputs[1..]));
      MonitorWritesOnlyAnswers(pin, inputs[1..]);
    }
  }

  /** A child process, known only by its handle. */
  datatype Process = Process(pid: nat)

  class PairingAgent {
    const pinCode: string
    var pairingActive: bool
    var pairingProcess: Option<Process>
    /** Everything written to the child and shown on the display, in order. */
    var log: seq<AgentAction>

    constructor()
      ensures pinCode == PinCode && !pairingActive && pairingProcess == None && log == []
    {
      pinCode := PinCode;
      pairingActive := false;
      pairingProcess := None;
      log := [];
    }

    /**
     * `start_pairing_agent`: a no-op while a worker is active; otherwise marks the agent active and
     * starts the worker, and clears the mark again if the thread cannot be started.
     */
    method Start(threadStarts: bool) returns (started: bool)
      modifies this
      ensures old(pairingActive) ==> !started && pairingActive
      ensures !old(pairingActive) ==> started == threadStarts && pairingActive == threadStarts
      ensures pairingProcess == old(pairingProcess) && log == old(log)
    {
      if pairingActive {
        return false;
      }
      pairingActive := true;
      if !threadStarts {
        pairingActive := false;
      }
      started := threadStarts;
    }

    /**
     * `stop_pairing_agent`: a held child is asked to stop; whether terminating or killing it fails or
     * not, the agent ends inactive and without a child, so stopping twice asks the child only once.
     */
    method Stop()
      modifies this
      ensures !pairingActive && pairingProcess == None
      ensures log == old(log) + StopActions(old(pairingProcess))
    {
      pairingActive := false;
      if pairingProcess.Some? {
        log := log + [Terminate(pairingProcess.value)];
        pairingProcess := None;
      }
    }

    /** Sends the setup directives, one write per directive, in order. */
    method SendSetup()
      modifies this
      ensures log == old(log) + WriteAll(SetupDirectives)
      ensures pairingActive == old(pairingActive) && pairingProcess == old(pairingProcess)
    {
      var setup := SetupDirectives;
      for j := 0 to |setup|
        invariant log == old(log) + WriteAll(setup[..j])
        invariant pairingActive == old(pairingActive) && pairingProcess == old(pairingProcess)
      {
        log := log + [Write(setup[j])];
        assert setup[..j + 1] == setup[..j] + [setup[j]];
      }
      assert setup[..|setup|] == setup;
    }

    /** Answers one line read from the child. */
    method Answer(raw: string)
      requires raw != []
      modifies this
      ensures log == old(log) + LineActions(pinCode, raw)
      ensures pairingActive == old(pairingActive) && pairingProcess == old(pairingProcess)
    {
      log := log + LineActions(pinCode, raw);
    }

    /** The `while pairing_active and poll() is None` loop: reads and answers lines until the run ends. */
    method Monitor(inputs: seq<AgentInput>)
      modifies this
      ensures log == old(log) + if old(pairingActive) then MonitorRun(pinCode, inputs) else []
      ensures pairingActive == old(pairingActive) && pairingProcess == old(pairingProcess)
    {
      if !pairingActive {
        return;
      }
      var i := 0;
      while pairingActive && i < |inputs|
        invariant Tracks(old(log), log, pinCode, inputs, i)
        invariant pairingActive == old(pairingActive) && pairingProcess == old(pairingProcess)
        decreases |inputs| - i
      {
        var x := inputs[i];
        if EndsRun(x) {
          MonitorEnd(old(log), log, pinCode, inputs, i);
          return;
        }
        MonitorStep(old(log), log, pinCode, inputs, i);
        Answer(x.raw);
        i := i + 1;
      }
      MonitorEnd(old(log), log, pinCode, inputs, i);
    }

    /**
     * `_pairing_agent_worker`: spawn the child (`None`: spawning failed), send the setup directives,
     * show that pairing is ready, answer prompts until the run ends, and always stop the agent at the end.
     * The `finally` clause is reached only once the loop has ended, so an active worker is given a
     * complete run: one that contains an empty read, a read error or an exit. When spawning fails, the
     * handle held before is the one stopped.
     */
    method Worker(spawned: Option<Process>, inputs: seq<AgentInput>)
      requires spawned.Some? && pairingActive ==> exists i :: 0 <= i < |inputs| && EndsRun(inputs[i])
      modifies this
      ensures !pairingActive && pairingProcess == None
      ensures spawned.Some? ==>
        log == old(log) + Setup() + (if old(pairingActive) then MonitorRun(pinCode, inputs) else []) + [Terminate(spawned.value)]
      ensures spawned.None? ==> log == old(log) + StopActions(old(pairingProcess))
    {
      if spawned.Some? {
        pairingProcess := spawned;
        SendSetup();
        log := log + [Show("Pairing Ready\nWaiting...")];
        assert log == old(log) + Setup();
        ghost var ready := log;
        Monitor(inputs);
        ghost var run := if old(pairingActive) then MonitorRun(pinCode, inputs) else [];
        assert log == ready + run;
        Stop();
        assert log == ready + run + [Terminate(spawned.value)];
      } else {
        Stop();
      }
    }
  }

  /** What stopping does with the handle held: a held child is asked to terminate, nothing otherwise. */
  function StopActions(held: Option<Process>): (a: seq<AgentAction>)
    ensures |a| <= 1 && Writes(a) == []
    ensures a != [] <==> held.Some?
  {
    if held.Some? then [Terminate(held.value)] else []
  }

  /** The setup directives as actions. */
  function WriteAll(directives: seq<string>): (a: seq<AgentAction>)
    ensures |a| == |directives|
    ensures forall j :: 0 <= j < |a| ==> a[j] == Write(directives[j])
  {
    if directives == [] then [] else WriteAll(directives[..|directives| - 1]) + [Write(directives[|directives| - 1])]
  }

  /** What the worker does before reading: the four setup directives, then the ready message. */
  function Setup(): seq<AgentAction> {
    WriteAll(SetupDirectives) + [Show("Pairing Ready\nWaiting...")]
  }
}
