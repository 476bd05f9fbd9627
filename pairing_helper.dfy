/**
 * The standalone pairing helper (`BluetoothPairingHelper`): the same kind of `bluetoothctl` agent as
 * the controller's, run in the foreground until a signal arrives. It has no display and no
 * new-device branch, and it keeps reading after an empty read.
 */
module PairingHelper {
  import opened Wrappers
  import opened Text
  import Pairing

  /** The PIN the helper answers with (`self.pin_code`). */
  const PinCode: string := "0000"

  /** The `if/elif` chain of `monitor_pairing_requests`, on a stripped line. */
  function HelperClassify(line: string): Pairing.PairingEvent {
    if Contains(line, "Request PIN code") then Pairing.PinRequested
    else if Contains(line, "Confirm passkey") then Pairing.PasskeyConfirm(Pairing.FindPasskey(line))
    else if Contains(line, "Request confirmation") then Pairing.ConfirmationRequested
    else if Contains(line, "[agent] Confirm passkey") then Pairing.AgentPasskeyConfirm(Pairing.FindPasskey(line))
    else if Contains(line, "Authorize service") then Pairing.AuthorizationRequested
    else if Contains(line, "Pairing successful") then Pairing.Succeeded
    else if Contains(line, "Failed to pair") then Pairing.Failed
    else if Contains(line, "Request canceled") then Pairing.Canceled
    else Pairing.Unrecognized
  }

  /** The directive the helper writes for an event, if any. */
  function HelperDirective(pin: string, e: Pairing.PairingEvent): Option<string> {
    match e
    case PinRequested => Some(pin + "\n")
    case PasskeyConfirm(_) => Some("yes\n")
    case ConfirmationRequested => Some("yes\n")
    case AgentPasskeyConfirm(_) => Some("yes\n")
    case AuthorizationRequested => Some("yes\n")
    case _ => None
  }

  /** One `readline()` result: an empty read is skipped, anything else is stripped and classified. */
  function HelperLine(pin: string, raw: string): Option<string> {
    if raw == [] then None else HelperDirective(pin, HelperClassify(Strip(raw)))
  }

  function OptionToSeq(o: Option<string>): (s: seq<string>)
    ensures |s| <= 1
  {
    if o.Some? then [o.value] else []
  }

  // ---------------------------------------------------------------------------
  // Agreement with the controller's agent

  /** The two chains agree on every line, except that the helper has no new-device notice. */
  lemma ClassifiersAgree(line: string)
    ensures HelperClassify(line) ==
      if Pairing.Classify(line) == Pairing.DeviceDiscovered then Pairing.Unrecognized else Pairing.Classify(line)
  {
  }

  /** Both agents write the same directive, if any, for every line they read. */
  lemma DirectivesAgree(pin: string, raw: string)
    ensures Pairing.Writes(Pairing.LineActions(pin, raw)) == OptionToSeq(HelperLine(pin, raw))
  {
    Pairing.LineWrites(pin, raw);
    ClassifiersAgree(Strip(raw));
    var line := Strip(raw);
    if raw != [] && line == [] {
      ContainsChar(line, "Request PIN code", 0);
      ContainsChar(line, "Confirm passkey", 0);
      ContainsChar(line, "Request confirmation", 0);
      ContainsChar(line, "[agent] Confirm passkey", 0);
      ContainsChar(line, "Authorize service", 0);
    }
    if raw == [] {
      assert line == [];
    }
    Pairing.AgentBranchUnreachable(line);
  }

  // ---------------------------------------------------------------------------
  // The monitoring loop

  /** One result of `stdout.readline()`, a read exception, or SIGINT/SIGTERM arriving. */
  datatype HelperInput = Read(raw: string) | ReadError | Signal

  /** What a run of inputs leads to: the directives written, whether the loop ended, and by a signal. */
  datatype HelperRun = HelperRun(written: seq<string>, ended: bool, signalled: bool)

  /**
   * The `while self.running` loop over a run of inputs: a read error or a signal ends it; empty reads
   * are skipped; when the inputs run out the loop is still waiting for output.
   */
  function Run(pin: string, inputs: seq<HelperInput>): (r: HelperRun)
    ensures r.signalled ==> r.ended
    decreases |inputs|
  {
    if inputs == [] then HelperRun([], false, false)
    else match inputs[0]
      case Read(raw) =>
        var rest := Run(pin, inputs[1..]);
        rest.(written := OptionToSeq(HelperLine(pin, raw)) + rest.written)
      case ReadError => HelperRun([], true, false)
      case Signal => HelperRun([], true, true)
  }

  /** An empty read neither writes nor stops anything: the loop just reads again. */
  lemma EmptyReadContinues(pin: string, inputs: seq<HelperInput>)
    ensures Run(pin, [Read([])] + inputs) == Run(pin, inputs)
  {
    assert ([Read([])] + inputs)[1..] == inputs;
  }

  /** Only a read error or a signal ends the loop. */
  lemma {:induction false} RunEndsOnlyOnErrorOrSignal(pin: string, inputs: seq<HelperInput>)
    ensures Run(pin, inputs).ended <==> exists i :: 0 <= i < |inputs| && !inputs[i].Read?
    decreases |inputs|
  {
    if inputs != [] {
      RunEndsOnlyOnErrorOrSignal(pin, inputs[1..]);
      if !inputs[0].Read? {
        assert !inputs[0].Read?;
      } else {
        if exists i :: 0 <= i < |inputs| && !inputs[i].Read? {
          var i :| 0 <= i < |inputs| && !inputs[i].Read?;
          assert inputs[1..][i - 1] == inputs[i];
        }
        if exists i :: 0 <= i < |inputs[1..]| && !inputs[1..][i].Read? {
          var i :| 0 <= i < |inputs[1..]| && !inputs[1..][i].Read?;
          assert inputs[i + 1] == inputs[1..][i];
        }
      }
    }
  }

  /** Every directive the loop writes is the PIN or `yes`. */
  lemma {:induction false} RunWritesOnlyAnswers(pin: string, inputs: seq<HelperInput>)
    ensures forall w :: w in Run(pin, inputs).written ==> w == pin + "\n" || w == "yes\n"
    decreases |inputs|
  {
    if inputs != [] && inputs[0].Read? {
      RunWritesOnlyAnswers(pin, inputs[1..]);
    }
  }

  /** A line asking for the PIN is answered with the PIN. */
  lemma PinLine(pin: string, s: string)
    requires Unpadded(s) && Contains(s, "Request PIN code")
    ensures HelperLine(pin, s) == Some(pin + "\n")
  {
    ContainsChar(s, "Request PIN code", 0);
    StripUnpadded(s);
  }

  /** `n` reads at the end of the child's output: once a pipe is at end of file, every read is empty. */
  function EndOfFile(n: nat): (inputs: seq<HelperInput>)
    ensures |inputs| == n
  {
    seq(n, _ => Read([]))
  }

  /**
   * At end of file the helper spins: however many empty reads it makes, it writes nothing and the
   * loop does not end; only a signal (or a read error) stops it.
   */
  lemma {:induction false} EndOfFileSpins(pin: string, n: nat)
    ensures Run(pin, EndOfFile(n)) == HelperRun([], false, false)
    ensures Run(pin, EndOfFile(n) + [Signal]) == HelperRun([], true, true)
    decreases n
  {
    if n == 0 {
      assert EndOfFile(0) + [Signal] == [Signal];
    } else {
      assert EndOfFile(n) == [Read([])] + EndOfFile(n - 1);
      assert EndOfFile(n) + [Signal] == [Read([])] + (EndOfFile(n - 1) + [Signal]);
      EmptyReadContinues(pin, EndOfFile(n - 1));
      EmptyReadContinues(pin, EndOfFile(n - 1) + [Signal]);
      EndOfFileSpins(pin, n - 1);
    }
  }

  /**
   * Where the two agents differ: at end of file the controller's loop ends at the first empty read
   * (and the worker then stops the agent), while the helper's loop keeps reading without end.
   */
  lemma EndOfFileDiffers(pin: string, n: nat)
    ensures Pairing.MonitorRun(pin, seq(n + 1, _ => Pairing.Line([]))) == []
    ensures !Run(pin, EndOfFile(n)).ended && Run(pin, EndOfFile(n)).written == []
  {
    var inputs := seq(n + 1, _ => Pairing.Line([]));
    assert inputs[0] == Pairing.Line([]);
    EndOfFileSpins(pin, n);
  }

  // ---------------------------------------------------------------------------
  // The helper object

  class BluetoothPairingHelper {
    const pinCode: string
    var running: bool
    /** Everything written to the child's standard input, in order. */
    var written: seq<string>
    /** Whether the `finally` clause has terminated the child. */
    var terminated: bool

    constructor()
      ensures pinCode == PinCode && running && written == [] && !terminated
    {
      pinCode := PinCode;
      running := true;
      written := [];
      terminated := false;
    }

    /** `signal_handler`: clears the flag; the `sys.exit` that follows ends the monitoring loop. */
    method SignalHandler()
      modifies this
      ensures !running && written == old(written) && terminated == old(terminated)
    {
      running := false;
    }

    /** Answers one line read from the child. */
    method Answer(raw: string)
      modifies this
      ensures written == old(written) + OptionToSeq(HelperLine(pinCode, raw))
      ensures running == old(running) && terminated == old(terminated)
    {
      written := written + OptionToSeq(HelperLine(pinCode, raw));
    }

    /**
     * The `while self.running` loop: answers lines until a read error or a signal ends it, which
     * `ended` reports; when the inputs run out the loop is still reading.
     */
    method ReadLoop(inputs: seq<HelperInput>) returns (ended: bool)
      requires running
      modifies this
      ensures written == old(written) + Run(pinCode, inputs).written
      ensures ended == Run(pinCode, inputs).ended && running == !Run(pinCode, inputs).signalled
      ensures terminated == old(terminated)
    {
      var i := 0;
      while running && i < |inputs|
        invariant running && Tracks(old(written), written, pinCode, inputs, i)
        invariant terminated == old(terminated)
        decreases |inputs| - i
      {
        var x := inputs[i];
        if !x.Read? {
          ReadEnd(old(written), written, pinCode, inputs, i);
          if x == Signal {
            SignalHandler();
          }
          return true;
        }
        ReadStep(old(written), written, pinCode, inputs, i);
        Answer(x.raw);
        i := i + 1;
      }
      ReadEnd(old(written), written, pinCode, inputs, i);
      return false;
    }

    /**
     * `monitor_pairing_requests`: spawn the child (`spawned` false: spawning failed), send
     * `agent on` and `default-agent`, then answer prompts while running; once the loop ends the
     * child is terminated.
     */
    method MonitorPairingRequests(spawned: bool, inputs: seq<HelperInput>)
      modifies this
      ensures !spawned ==> written == old(written) && running == old(running) && terminated == old(terminated)
      ensures spawned && !old(running) ==>
        written == old(written) + ["agent on\n", "default-agent\n"] && !running && terminated
      ensures spawned && old(running) ==>
        && written == old(written) + ["agent on\n", "default-agent\n"] + Run(pinCode, inputs).written
        && running == !Run(pinCode, inputs).signalled
        && terminated == (old(terminated) || Run(pinCode, inputs).ended)
    {
      if !spawned {
        return;
      }
      written := written + ["agent on\n", "default-agent\n"];
      if !running {
        terminated := true;
        return;
      }
      var ended := ReadLoop(inputs);
      if ended {
        terminated := true;
      }
    }
  }

  /**
   * The read loop's invariant: what has been written (`w`, after `w0`) and what the rest of the inputs
   * lead to make up the whole run.
   */
  predicate Tracks(w0: seq<string>, w: seq<string>, pin: string, inputs: seq<HelperInput>, i: nat) {
    && i <= |inputs|
    && w + Run(pin, inputs[i..]).written == w0 + Run(pin, inputs).written
    && Run(pin, inputs[i..]).ended == Run(pin, inputs).ended
    && Run(pin, inputs[i..]).signalled == Run(pin, inputs).signalled
  }

  /** When the inputs run out or an error or a signal arrives, the loop has written everything. */
  lemma ReadEnd(w0: seq<string>, w: seq<string>, pin: string, inputs: seq<HelperInput>, i: nat)
    requires Tracks(w0, w, pin, inputs, i) && (i == |inputs| || !inputs[i].Read?)
    ensures w == w0 + Run(pin, inputs).written
    ensures Run(pin, inputs).ended == (i < |inputs|)
    ensures Run(pin, inputs).signalled == (i < |inputs| && inputs[i] == Signal)
  {
    if i < |inputs| {
      RunStep(pin, inputs, i);
    } else {
      assert inputs[i..] == [];
    }
    assert w + [] == w;
  }

  /** The read loop's invariant is kept by answering the next line. */
  lemma ReadStep(w0: seq<string>, w: seq<string>, pin: string, inputs: seq<HelperInput>, i: nat)
    requires Tracks(w0, w, pin, inputs, i) && i < |inputs| && inputs[i].Read?
    ensures Tracks(w0, w + OptionToSeq(HelperLine(pin, inputs[i].raw)), pin, inputs, i + 1)
  {
    RunStep(pin, inputs, i);
    AppendShift(w, OptionToSeq(HelperLine(pin, inputs[i].raw)), Run(pin, inputs[i + 1..]).written,
      w0 + Run(pin, inputs).written);
  }

  /** One step of a run: a read is answered and the run goes on; an error or a signal ends it. */
  lemma RunStep(pin: string, inputs: seq<HelperInput>, i: nat)
    requires i < |inputs|
    ensures inputs[i] == ReadError ==> Run(pin, inputs[i..]) == HelperRun([], true, false)
    ensures inputs[i] == Signal ==> Run(pin, inputs[i..]) == HelperRun([], true, true)
    ensures inputs[i].Read? ==>
      var rest := Run(pin, inputs[i + 1..]);
      Run(pin, inputs[i..]) == rest.(written := OptionToSeq(HelperLine(pin, inputs[i].raw)) + rest.written)
  {
    assert inputs[i..][0] == inputs[i] && inputs[i..][1..] == inputs[i + 1..];
  }
}
