/**
 * The RFCOMM session of the controller: the greeting and handshake after a client connects
 * (`wait_for_connection`) and the per-connection command loop of `run_server`, over abstract
 * sequences of received chunks.
 */
module Session {
  import opened Wrappers
  import opened Text
  import Commands

  const Welcome := "WELCOME_RPi"
  const HandshakeOk := "HANDSHAKE_OK"
  /** The replies the server accepts as a handshake, after stripping. */
  const HandshakeTokens: seq<string> := ["PING", "HELLO", "CONNECT"]
  const DecodeError := "ERROR:DECODE_ERROR"

  // ---------------------------------------------------------------------------
  // Handshake

  /** What the client's first `recv` yields: no data, bytes that are not UTF-8, text, or a timeout. */
  datatype HandshakeReply = NoData | BadBytes | Reply(text: string) | TimedOut

  predicate AcceptsHandshake(reply: HandshakeReply) {
    reply.Reply? && Strip(reply.text) in HandshakeTokens
  }

  /** Everything the server sends during the handshake: the greeting, then the confirmation if any. */
  function HandshakeSent(reply: HandshakeReply): (sent: seq<string>)
    ensures |sent| >= 1 && sent[0] == Welcome
  {
    [Welcome] + if AcceptsHandshake(reply) then [HandshakeOk] else []
  }

  /** The confirmation is sent exactly when the stripped reply is one of the three tokens. */
  lemma HandshakeOkIff(reply: HandshakeReply)
    ensures HandshakeOk in HandshakeSent(reply) <==>
      reply.Reply? && (Strip(reply.text) == "PING" || Strip(reply.text) == "HELLO" || Strip(reply.text) == "CONNECT")
    ensures HandshakeSent(reply) == [Welcome] || HandshakeSent(reply) == [Welcome, HandshakeOk]
  {
    assert Welcome != HandshakeOk by { assert Welcome[0] != HandshakeOk[0]; }
  }

  /** Whitespace around a token does not matter, and the Android client's `PING` is accepted. */
  lemma PaddedTokenAccepted(pad1: string, token: string, pad2: string)
    requires forall i :: 0 <= i < |pad1| ==> IsSpace(pad1[i])
    requires forall i :: 0 <= i < |pad2| ==> IsSpace(pad2[i])
    requires token in HandshakeTokens
    ensures AcceptsHandshake(Reply(pad1 + token + pad2))
    ensures AcceptsHandshake(Reply("PING"))
  {
    assert Unpadded(token);
    StripPadded(pad1, token, pad2);
    assert Unpadded("PING");
    StripUnpadded("PING");
  }

  // ---------------------------------------------------------------------------
  // The command loop

  /**
   * One `recv(1024)` on the client socket: no data (the client closed), bytes that are not UTF-8,
   * decoded text (with the outcome of any servo write it requests), or a transport error or timeout.
   */
  datatype Chunk = Empty | Undecodable | Text(data: string, writeOk: bool) | Failed

  predicate EndsSession(c: Chunk) {
    c.Empty? || c.Failed?
  }

  /** The one response the server sends for a chunk that does not end the session. */
  function ReplyFor(c: Chunk): (s: string)
    requires !EndsSession(c)
  {
    if c.Undecodable? then DecodeError else Commands.ReplyText(Commands.ProcessCommand(c.data, c.writeOk).reply)
  }

  /** The hardware and display effects a chunk requests. */
  function EffectsFor(c: Chunk): (e: seq<Commands.Effect>)
    requires !EndsSession(c)
    ensures c.Undecodable? ==> e == []
  {
    if c.Undecodable? then [] else Commands.ProcessCommand(c.data, c.writeOk).effects
  }

  /** What a run of chunks leads to: the responses, the effects, and whether the session ended. */
  datatype Transcript = Transcript(replies: seq<string>, effects: seq<Commands.Effect>, ended: bool)

  /** The inner `while self.is_running` loop over a run of chunks; when they run out it is still reading. */
  function Serve(chunks: seq<Chunk>): Transcript
    decreases |chunks|
  {
    if chunks == [] then Transcript([], [], false)
    else if EndsSession(chunks[0]) then Transcript([], [], true)
    else
      var rest := Serve(chunks[1..]);
      Transcript([ReplyFor(chunks[0])] + rest.replies, EffectsFor(chunks[0]) + rest.effects, rest.ended)
  }

  /**
   * One response per chunk, in order, up to the first empty chunk or transport error, which ends the
   * session; a run without one leaves it open.
   */
  lemma {:induction false} OneReplyPerChunk(chunks: seq<Chunk>)
    ensures |Serve(chunks).replies| <= |chunks|
    ensures forall i :: 0 <= i < |Serve(chunks).replies| ==>
      !EndsSession(chunks[i]) && Serve(chunks).replies[i] == ReplyFor(chunks[i])
    ensures |Serve(chunks).replies| < |chunks| ==> EndsSession(chunks[|Serve(chunks).replies|])
    ensures Serve(chunks).ended <==> |Serve(chunks).replies| < |chunks|
    decreases |chunks|
  {
    if chunks != [] && !EndsSession(chunks[0]) {
      var tail := chunks[1..];
      OneReplyPerChunk(tail);
      var r := Serve(chunks).replies;
      assert r == [ReplyFor(chunks[0])] + Serve(tail).replies;
      forall i | 0 <= i < |r|
        ensures !EndsSession(chunks[i]) && r[i] == ReplyFor(chunks[i])
      {
        if i > 0 {
          assert chunks[i] == tail[i - 1];
        }
      }
      if |r| < |chunks| {
        assert chunks[|r|] == tail[|r| - 1];
      }
    }
  }

  /** Every response starts with `OK:` or `ERROR:`. */
  lemma {:induction false} RepliesTagged(chunks: seq<Chunk>)
    ensures forall s :: s in Serve(chunks).replies ==> "OK:" <= s || "ERROR:" <= s
    decreases |chunks|
  {
    if chunks != [] && !EndsSession(chunks[0]) {
      RepliesTagged(chunks[1..]);
    }
  }

  /** An undecodable chunk is answered with `ERROR:DECODE_ERROR` and the session goes on. */
  lemma DecodeErrorContinues(rest: seq<Chunk>)
    ensures Serve([Undecodable] + rest) == Serve(rest).(replies := [DecodeError] + Serve(rest).replies)
  {
    assert ([Undecodable] + rest)[1..] == rest;
  }

  /** `DISCONNECT` is answered but does not end the session: the next chunk is still served. */
  lemma DisconnectContinues(command: string, writeOk: bool, rest: seq<Chunk>)
    requires Strip(command) == "DISCONNECT"
    ensures Serve([Text(command, writeOk)] + rest).replies == ["OK:DISCONNECTED"] + Serve(rest).replies
    ensures Serve([Text(command, writeOk)] + rest).ended == Serve(rest).ended
  {
    Commands.ExactCommands(command, writeOk);
    assert Commands.ReplyText(Commands.Disconnected) == "OK:DISCONNECTED";
    assert ([Text(command, writeOk)] + rest)[1..] == rest;
  }

  // ---------------------------------------------------------------------------
  // The server object

  class ConnectionServer {
    var isRunning: bool
    /** The connected client's address, standing for `self.client_socket`. */
    var clientSocket: Option<string>
    /** Everything sent to clients, in order. */
    var sent: seq<string>
    /** The servo and display effects requested, in order. */
    var effects: seq<Commands.Effect>

    constructor()
      ensures isRunning && clientSocket == None && sent == [] && effects == []
    {
      isRunning := true;
      clientSocket := None;
      sent := [];
      effects := [];
    }

    /**
     * `wait_for_connection`: `accepted` is the client address, or `None` when `accept` fails; then the
     * greeting and the handshake, which never refuse the connection.
     */
    method WaitForConnection(accepted: Option<string>, reply: HandshakeReply) returns (ok: bool)
      modifies this
      ensures ok == accepted.Some?
      ensures !ok ==> sent == old(sent) && effects == old(effects) && clientSocket == old(clientSocket)
      ensures ok ==>
        && clientSocket == accepted
        && sent == old(sent) + HandshakeSent(reply)
        && effects == old(effects) + [Commands.ShowText("Connected:\n" + accepted.value[..Min(12, |accepted.value|)])]
      ensures isRunning == old(isRunning)
    {
      if accepted.None? {
        return false;
      }
      clientSocket := accepted;
      sent := sent + [Welcome];
      if AcceptsHandshake(reply) {
        sent := sent + [HandshakeOk];
      }
      var address := accepted.value;
      effects := effects + [Commands.ShowText("Connected:\n" + address[..Min(12, |address|)])];
      return true;
    }

    /** Answers one chunk that does not end the session. */
    method Answer(c: Chunk)
      requires !EndsSession(c)
      modifies this
      ensures sent == old(sent) + [ReplyFor(c)] && effects == old(effects) + EffectsFor(c)
      ensures isRunning == old(isRunning) && clientSocket == old(clientSocket)
    {
      sent := sent + [ReplyFor(c)];
      effects := effects + EffectsFor(c);
    }

    /** The inner loop: answers chunks until one ends the session, which `ended` reports. */
    method CommandLoop(chunks: seq<Chunk>) returns (ended: bool)
      requires isRunning
      modifies this
      ensures sent == old(sent) + Serve(chunks).replies && effects == old(effects) + Serve(chunks).effects
      ensures ended == Serve(chunks).ended
      ensures isRunning == old(isRunning) && clientSocket == old(clientSocket)
    {
      var i := 0;
      while isRunning && i < |chunks|
        invariant Tracks(old(sent), old(effects), sent, effects, chunks, i)
        invariant isRunning == old(isRunning) && clientSocket == old(clientSocket)
        decreases |chunks| - i
      {
        var c := chunks[i];
        if EndsSession(c) {
          LoopEnd(old(sent), old(effects), sent, effects, chunks, i);
          return true;
        }
        LoopStep(old(sent), old(effects), sent, effects, chunks, i);
        Answer(c);
        i := i + 1;
      }
      LoopEnd(old(sent), old(effects), sent, effects, chunks, i);
      return false;
    }

    /**
     * A connected client: show that it is ready, serve its chunks, and once the session ends drop the
     * client and show that the server waits again.
     */
    method ServeClient(chunks: seq<Chunk>)
      requires isRunning
      modifies this
      ensures sent == old(sent) + Serve(chunks).replies
      ensures effects == old(effects) + [Commands.ShowText("Connected!\nReady")] + Serve(chunks).effects
        + (if Serve(chunks).ended then [Commands.ShowText("Disconnected\nWaiting...")] else [])
      ensures clientSocket == if Serve(chunks).ended then None else old(clientSocket)
      ensures isRunning
    {
      effects := effects + [Commands.ShowText("Connected!\nReady")];
      var ended := CommandLoop(chunks);
      if ended {
        clientSocket := None;
        effects := effects + [Commands.ShowText("Disconnected\nWaiting...")];
      }
    }

    /** One pass of the outer `while self.is_running` loop: wait for a client, then serve it. */
    method RunOnce(accepted: Option<string>, reply: HandshakeReply, chunks: seq<Chunk>)
      requires isRunning
      modifies this
      ensures accepted.None? ==> sent == old(sent) && effects == old(effects) && clientSocket == old(clientSocket)
      ensures accepted.Some? ==>
        && sent == old(sent) + HandshakeSent(reply) + Serve(chunks).replies
        && effects == old(effects)
             + [Commands.ShowText("Connected:\n" + accepted.value[..Min(12, |accepted.value|)])]
             + [Commands.ShowText("Connected!\nReady")] + Serve(chunks).effects
             + (if Serve(chunks).ended then [Commands.ShowText("Disconnected\nWaiting...")] else [])
        && clientSocket == if Serve(chunks).ended then None else accepted
      ensures isRunning
    {
      var ok := WaitForConnection(accepted, reply);
      if ok {
        ServeClient(chunks);
      }
    }
  }

  /** One step of the loop: an ending chunk ends the run, any other is answered and the run goes on. */
  lemma ServeStep(chunks: seq<Chunk>, i: nat)
    requires i < |chunks|
    ensures EndsSession(chunks[i]) ==> Serve(chunks[i..]) == Transcript([], [], true)
    ensures !EndsSession(chunks[i]) ==>
      var rest := Serve(chunks[i + 1..]);
      Serve(chunks[i..]) ==
        Transcript([ReplyFor(chunks[i])] + rest.replies, EffectsFor(chunks[i]) + rest.effects, rest.ended)
  {
    assert chunks[i..][0] == chunks[i] && chunks[i..][1..] == chunks[i + 1..];
  }

  /**
   * The command loop's invariant: what has been sent and requested so far and what the rest of the
   * chunks lead to make up the whole session.
   */
  predicate Tracks(sent0: seq<string>, effects0: seq<Commands.Effect>, sent: seq<string>,
                   effects: seq<Commands.Effect>, chunks: seq<Chunk>, i: nat) {
    && i <= |chunks|
    && sent + Serve(chunks[i..]).replies == sent0 + Serve(chunks).replies
    && effects + Serve(chunks[i..]).effects == effects0 + Serve(chunks).effects
    && Serve(chunks[i..]).ended == Serve(chunks).ended
  }

  /** When the chunks run out or one ends the session, the loop has sent and requested everything. */
  lemma LoopEnd(sent0: seq<string>, effects0: seq<Commands.Effect>, sent: seq<string>, effects: seq<Commands.Effect>,
                chunks: seq<Chunk>, i: nat)
    requires Tracks(sent0, effects0, sent, effects, chunks, i) && (i == |chunks| || EndsSession(chunks[i]))
    ensures sent == sent0 + Serve(chunks).replies && effects == effects0 + Serve(chunks).effects
    ensures Serve(chunks).ended == (i < |chunks|)
  {
    if i < |chunks| {
      ServeStep(chunks, i);
    } else {
      assert chunks[i..] == [];
    }
    assert sent + [] == sent && effects + [] == effects;
  }

  /** The command loop's invariant is kept by answering the next chunk. */
  lemma LoopStep(sent0: seq<string>, effects0: seq<Commands.Effect>, sent: seq<string>, effects: seq<Commands.Effect>,
                 chunks: seq<Chunk>, i: nat)
    requires Tracks(sent0, effects0, sent, effects, chunks, i) && i < |chunks| && !EndsSession(chunks[i])
    ensures Tracks(sent0, effects0, sent + [ReplyFor(chunks[i])], effects + EffectsFor(chunks[i]), chunks, i + 1)
  {
    ServeStep(chunks, i);
    var rest := Serve(chunks[i + 1..]);
    AppendShift(sent, [ReplyFor(chunks[i])], rest.replies, sent0 + Serve(chunks).replies);
    AppendShift(effects, EffectsFor(chunks[i]), rest.effects, effects0 + Serve(chunks).effects);
  }

  /**
   * The Android client's session: it answers the greeting with `PING`, turns servo 2 to 45 degrees
   * and then closes the connection.
   */
  lemma AndroidSession()
    ensures HandshakeSent(Reply("PING")) == [Welcome, HandshakeOk]
    ensures Serve([Text("SERVO2:45", true), Empty]).replies == [Commands.ReplyText(Commands.ServoMoved(Commands.Servo2, 45))]
    ensures Serve([Text("SERVO2:45", true), Empty]).ended
  {
    PaddedTokenAccepted([], "PING", []);
    Commands.ServoExample45();
    var chunks := [Text("SERVO2:45", true), Empty];
    ServeStep(chunks, 0);
    ServeStep(chunks, 1);
    assert chunks[1..] == [Empty] && chunks[2..] == [];
  }
}
