/**
  The MCP stdio server: reading messages, dispatching them, and waiting for sampling
  replies while serving the requests that come in between.

  Every method keeps a ghost log and proves it to be an accepted conversation of the
  machine in Protocol; what follows for whole runs is proved there, about the machine.
*/
module McpServer {
  import opened Framing
  import opened Options
  import opened Protocol
  import opened Text

  /** The status a handler's last action gives its tool call. */
  function StatusOf(action: Action): Status
  {
    if action == Return(false) then Passed else Failed
  }

  lemma {:induction false} StillBounded(env: Env, m: Message, k: nat, heard: seq<Outcome>)
    requires Finite(env) && env.handler(m, k, heard).Sample?
    ensures |heard| < env.bound(k)
  {
  }

  class Server {
    const env: Env
    const reader: LineReader
    var samplingSeq: nat
    var clientSupportsSampling: bool // while it does, the host sampler is registered
    var dispatched: nat
    var ticks: nat
    var stdout: seq<Wire>
    ghost const lines: seq<string>   // every line of the input
    ghost var log: seq<Event>
    ghost var states: seq<Machine>   // the machine's states along the log
    ghost var machine: Machine       // the last of them
    ghost var hand: seq<string>      // a line read and not yet accounted for

    constructor (env: Env, input: seq<Arrival>)
      requires Finite(env)
      ensures Valid() && fresh(reader) && machine == START && log == [] && hand == []
      ensures lines == Lines(TextOf(input)) && this.env == env
    {
      hide TextOf, Lines, Unlines;
      this.env := env;
      reader := new LineReader(input);
      samplingSeq, dispatched, ticks := 0, 0, 0;
      clientSupportsSampling := false;
      stdout, lines := [], Lines(TextOf(input));
      log, states, machine, hand := [], [START], START, [];
      new;
      assert "" + TextOf(input) == TextOf(input);
    }

    /** The log is accepted, the output is what it says was sent, and it accounts for every line read. */
    ghost predicate Valid()
      reads this, reader
    {
      && reader.Valid() && Finite(env)
      && Told()
      && machine.asked == samplingSeq && machine.dispatched == dispatched && machine.sampler == clientSupportsSampling
      && stdout == Wires(log)
      && LinesRead(log) + hand == reader.delivered
      && reader.delivered + reader.Rest() == lines
    }

    /** The log is a conversation the machine accepts, ending in its present state. */
    ghost predicate Told()
      reads this
    {
      Trace(env, log, states) && machine == states[|log|]
    }

    ghost function Remaining(): nat
      reads this, reader
    {
      |reader.Rest()|
    }

    /**
      Sampling calls given up, and silences still ahead: it does not go down while a request is
      being served, since every silence met makes one waiting call give up.
    */
    ghost function Patience(): nat
      reads this, reader
    {
      GiveUps(log) + Silences(reader.input)
    }

    /** Log an event that the machine allows, and send what it puts on the wire. */
    method Emit(ghost e: Event, sent: seq<Wire>)
      requires Valid() && Enabled(env, machine, e) && sent == WireOf(e)
      requires !e.Opened? && !e.Asked? && (e.Answered? ==> !e.answer.Capabilities?)
      requires LineOf(e) == hand
      modifies `stdout, `log, `states, `machine, `hand
      ensures Valid() && machine == After(env, old(machine), e) && log == old(log) + [e] && hand == []
      ensures stdout == old(stdout) + sent
      ensures GiveUps(log) == old(GiveUps(log)) + if e.GaveUp? then 1 else 0
    {
      stdout := stdout + sent;
      Account(e);
    }

    ghost method Account(e: Event)
      requires Told() && Enabled(env, machine, e)
      modifies `log, `states, `machine, `hand
      ensures log == old(log) + [e] && machine == After(env, old(machine), e) && hand == []
      ensures Told()
      ensures GiveUps(log) == old(GiveUps(log)) + if e.GaveUp? then 1 else 0
      ensures Wires(log) == old(Wires(log)) + WireOf(e) && LinesRead(log) == old(LinesRead(log)) + LineOf(e)
    {
      assert (log + [e])[..|log|] == log;
      TraceSnoc(env, log, states, e);
      log, states, hand := log + [e], states + [After(env, machine, e)], [];
      machine := After(env, machine, e);
    }

    // ---- Reading ----

    /** What has been read: a message, a line standing for the end or one the decoder raises on, or none. */
    ghost predicate Held(msg: Option<Message>, raised: bool)
      reads this
    {
      if msg.Some? then !raised && |hand| == 1 && env.decode(hand[0]) == Json(msg.value)
      else if raised then |hand| == 1 && env.decode(hand[0]) == Raises
      else hand == [] || (|hand| == 1 && env.decode(hand[0]) == Null)
    }

    /** Nothing but the reading side has changed. */
    twostate predicate OnlyRead()
      reads this
    {
      && machine == old(machine)
      && samplingSeq == old(samplingSeq) && dispatched == old(dispatched)
      && clientSupportsSampling == old(clientSupportsSampling)
    }

    /** Take the next line in hand. */
    method ReadLine(timed: bool) returns (line: Option<string>)
      requires Valid() && hand == []
      modifies `hand, reader
      ensures Valid() && |reader.input| <= |old(reader.input)|
      ensures match line
              case Some(text) => hand == [text] && Remaining() < old(Remaining())
              case None => hand == [] && Remaining() == old(Remaining())
                           && (reader.AtEnd() || (timed && |reader.input| < |old(reader.input)| && reader.FellSilent()))
      ensures timed ==> Silences(old(reader.input)) <= Silences(reader.input) + if line.Some? then 0 else 1
    {
      hide Trace, Wires, LinesRead, Unlines, Lines, TextOf, GiveUps, Silences;
      ghost var before := reader.delivered;
      line := reader.NextLine(timed);
      if line.Some? {
        hand := [line.value];
        assert before + ([line.value] + reader.Rest()) == reader.delivered + reader.Rest();
      }
    }

    /** A line that is no message: a blank one is skipped, one that is no JSON gets the parse error. */
    ghost predicate PassedOver(e: Event, before: seq<Wire>)
      reads this
    {
      match e
      case Skipped(line) => env.decode(line) == Blank && stdout == before
      case ParseError(line) =>
        env.decode(line) == Garbage && stdout == before + [ErrorResponse(NullId, -32700, "Parse error")]
      case _ => false
    }

    /** Read one line and account for it if it is passed over; again asks for another one. */
    method Take(timed: bool) returns (msg: Option<Message>, raised: bool, again: bool)
      requires Valid() && hand == [] && Reading(machine)
      modifies `hand, `stdout, `log, `states, `machine, reader
      ensures Valid() && Held(msg, raised) && OnlyRead() && |reader.input| <= |old(reader.input)|
      ensures again ==> msg.None? && !raised && hand == []
      ensures again ==> |log| == |old(log)| + 1 && PassedOver(log[|log| - 1], old(stdout))
      ensures !again ==> log == old(log) && stdout == old(stdout)
      ensures hand != [] || again ==> Remaining() < old(Remaining())
      ensures timed ==> old(Patience()) <= Patience() + if hand != [] || again then 0 else 1
      ensures hand == [] && !again ==> Remaining() == old(Remaining())
                                       && (reader.AtEnd() || (timed && reader.FellSilent()))
    {
      var line := ReadLine(timed);
      if line.None? {
        return None, false, false;
      }
      match env.decode(line.value) {
        case Blank =>
          Emit(Skipped(line.value), []);
          return None, false, true;
        case Garbage =>
          Emit(ParseError(line.value), [ErrorResponse(NullId, -32700, "Parse error")]);
          return None, false, true;
        case Null =>
          return None, false, false;
        case Raises =>
          return None, true, false;
        case Json(m) =>
          return Some(m), false, false;
      }
    }

    /**
      _read_message: skip blank lines, answer unreadable ones with a parse error. None is
      returned at the end of the input and for the value null; what the decoder raises goes on.
    */
    method ReadMessage() returns (msg: Option<Message>, raised: bool)
      requires Valid() && hand == [] && Reading(machine)
      modifies `hand, `stdout, `log, `states, `machine, reader
      ensures Valid() && Held(msg, raised) && OnlyRead()
      ensures hand != [] ==> Remaining() < old(Remaining())
      ensures hand == [] ==> reader.AtEnd()
    {
      var again := true;
      msg, raised := None, false;
      while again
        invariant Valid() && Held(msg, raised) && OnlyRead() && Remaining() <= old(Remaining())
        invariant again ==> hand == []
        invariant !again ==> if hand == [] then reader.AtEnd() else Remaining() < old(Remaining())
        decreases again, Remaining()
      {
        msg, raised, again := Take(false);
      }
    }

    /**
      _read_message_before: as above, but give up when the deadline has passed or the wait
      ran into it.
    */
    method ReadMessageBefore() returns (msg: Option<Message>, raised: bool)
      requires Valid() && hand == [] && Reading(machine)
      modifies `hand, `stdout, `log, `states, `machine, `ticks, reader
      ensures Valid() && Held(msg, raised) && OnlyRead() && Remaining() <= old(Remaining())
      ensures hand != [] ==> Remaining() < old(Remaining())
      ensures hand == [] ==> OutOfTime()
      ensures old(Patience()) <= Patience() + if hand != [] then 0 else 1
      ensures ticks > old(ticks)
      ensures forall t :: old(ticks) <= t < ticks && env.expired(t) ==> hand == [] && t == ticks - 1
    {
      hide Trace, Wires, LinesRead, Unlines, Lines, TextOf, GiveUps, Silences;
      var again := true;
      msg, raised := None, false;
      while again
        invariant Valid() && Held(msg, raised) && OnlyRead() && Remaining() <= old(Remaining())
        invariant again ==> hand == []
        invariant !again ==> if hand == [] then OutOfTime() else Remaining() < old(Remaining())
        invariant old(Patience()) <= Patience() + if hand != [] || again then 0 else 1
        invariant ticks >= old(ticks) && (!again ==> ticks > old(ticks))
        invariant forall t :: old(ticks) <= t < ticks ==> !env.expired(t)
        decreases again, Remaining()
      {
        var now := ticks;
        ticks := ticks + 1;
        if env.expired(now) {
          return None, false;
        }
        msg, raised, again := Take(true);
      }
    }

    /**
      The only reasons to stop waiting: the clock had just passed the deadline, the host fell
      silent, or the input is over.
    */
    ghost predicate OutOfTime()
      reads this, reader
    {
      (ticks > 0 && env.expired(ticks - 1)) || reader.FellSilent() || reader.AtEnd()
    }

    // ---- Dispatching ----

    /**
      _handle_request: exactly the messages the dispatcher raises on are left
      unanswered by an exception; everything opened meanwhile has been closed again.
    */
    method HandleRequest(m: Message) returns (ok: bool)
      requires Valid() && CanOpen(machine, m) && Held(Some(m), false)
      modifies this, reader
      ensures Valid() && hand == [] && Remaining() <= old(Remaining())
      ensures machine.stack == old(machine.stack) && machine.raising == !ok
      ensures ok <==> !Faulty(m)
      ensures Answers(m, old(dispatched), old(stdout), ok)
      ensures Patience() >= old(Patience())
      decreases Remaining(), 8
    {
      hide Trace, Wires, LinesRead, Unlines, Lines, TextOf, GiveUps, Silences, Warranted;
      ghost var base := machine.stack;
      var k := dispatched;
      Open(m);
      if m.NotObject? || m.methodKey.NotText? {
        Abort(k, m, base);
        return false;
      }
      if m.methodKey.Named? && NOTIFICATION <= m.methodKey.name {
        Emit(Closed(k), []);
        return true;
      }
      ok := Dispatch(k, m, base);
    }

    /**
      What serving a message, request number k, puts on the wire after what was there: a
      notification nothing, and every method its own response; a tool call's response
      comes last, after what its handler and the requests in between have sent.
    */
    ghost predicate Answers(m: Message, k: nat, before: seq<Wire>, ok: bool)
      reads this
    {
      m.Object? && !m.methodKey.NotText? ==>
        var name := if m.methodKey.Named? then m.methodKey.name else "";
        if "notifications/" <= name then stdout == before
        else if name == "ping" then stdout == before + [Response(m.id, Pong)]
        else if name == "tools/list" then stdout == before + [Response(m.id, ToolList)]
        else if name == "initialize" then
          if m.params.NotMapping? then !ok && stdout == before
          else stdout == before + [Response(m.id, Capabilities(m.params.sampling))]
        else if name == "tools/call" then
          if m.params.NotMapping? || m.params.tool.NoText? then !ok && stdout == before
          else
            && stdout != [] && stdout[|stdout| - 1].Response? && stdout[|stdout| - 1].id == m.id
            && stdout[|stdout| - 1].answer.ToolResult?
            && Justified(env, k, m, stdout[|stdout| - 1].answer.status)
        else stdout == before + [ErrorResponse(m.id, -32601, name)]
    }

    /** The dispatch on the method name. */
    method Dispatch(k: nat, m: Message, ghost base: Stack) returns (ok: bool)
      requires Valid() && hand == [] && !machine.raising
      requires m.Object? && !m.methodKey.NotText? && !IsNotification(m)
      requires machine.stack == Push(Serving(k, m, [], false, clientSupportsSampling), base)
      modifies this, reader
      ensures Valid() && hand == [] && Remaining() <= old(Remaining())
      ensures machine.stack == base && machine.raising == !ok
      ensures ok <==> !Faulty(m)
      ensures Answers(m, k, old(stdout), ok)
      ensures Patience() >= old(Patience())
      decreases Remaining(), 7
    {
      hide Trace, Wires, LinesRead, Unlines, Lines, TextOf, GiveUps, Silences, Warranted;
      var name := if m.methodKey.Named? then m.methodKey.name else "";
      if name == "initialize" {
        ok := Initialize(k, m, base);
      } else if name == "tools/call" {
        ok := ToolsCall(k, m, base);
      } else {
        var answer := if name == "ping" then Pong else if name == "tools/list" then ToolList else NotFound(name);
        SendAnswer(m, answer);
        ok := true;
      }
    }

    /** The initialize branch: note what the client can do, and hand the sampler out if it can sample. */
    method Initialize(k: nat, m: Message, ghost base: Stack) returns (ok: bool)
      requires Valid() && hand == [] && !machine.raising
      requires m.Object? && m.methodKey == Named("initialize") && !IsNotification(m)
      requires machine.stack == Push(Serving(k, m, [], false, clientSupportsSampling), base)
      modifies this
      ensures Valid() && hand == [] && machine.stack == base && machine.raising == !ok
      ensures ok <==> !Faulty(m)
      ensures ok ==> clientSupportsSampling == m.params.sampling
      ensures stdout == old(stdout) + if ok then [Response(m.id, Capabilities(m.params.sampling))] else []
      ensures Patience() >= old(Patience())
    {
      if m.params.NotMapping? {
        Abort(k, m, base);
        return false;
      }
      clientSupportsSampling := m.params.sampling;
      SendAnswer(m, Capabilities(m.params.sampling));
      return true;
    }

    /** The tools/call branch. */
    method ToolsCall(k: nat, m: Message, ghost base: Stack) returns (ok: bool)
      requires Valid() && hand == [] && !machine.raising
      requires m.Object? && m.methodKey == Named("tools/call") && !IsNotification(m)
      requires machine.stack == Push(Serving(k, m, [], false, clientSupportsSampling), base)
      modifies this, reader
      ensures Valid() && hand == [] && Remaining() <= old(Remaining())
      ensures machine.stack == base && machine.raising == !ok
      ensures ok <==> !Faulty(m)
      ensures Answers(m, k, old(stdout), ok)
      ensures Patience() >= old(Patience())
      decreases Remaining(), 6
    {
      hide Trace, Wires, LinesRead, Unlines, Lines, TextOf, GiveUps, Silences, Warranted;
      if m.params.NotMapping? || m.params.tool.NoText? {
        Abort(k, m, base);
        return false;
      }
      var status := CallTool(k, m, base);
      SendAnswer(m, ToolResult(status));
      return true;
    }

    /** The exception the dispatcher raises on a message it cannot take apart. */
    method Abort(k: nat, m: Message, ghost base: Stack)
      requires Valid() && hand == [] && !machine.raising && Faulty(m)
      requires machine.stack == Push(Serving(k, m, [], false, clientSupportsSampling), base)
      modifies `stdout, `log, `states, `machine, `hand
      ensures Valid() && hand == [] && machine.stack == base && machine.raising && stdout == old(stdout)
      ensures Patience() >= old(Patience())
    {
      Emit(Aborted(k), []);
    }

    /** The message in hand becomes the innermost request. */
    method Open(m: Message)
      requires Valid() && CanOpen(machine, m) && Held(Some(m), false)
      modifies `dispatched, `log, `states, `machine, `hand
      ensures Valid() && hand == [] && dispatched == old(dispatched) + 1
      ensures !machine.raising
      ensures machine.stack == Push(Serving(old(dispatched), m, [], false, clientSupportsSampling), old(machine.stack))
      ensures Patience() >= old(Patience())
    {
      assert hand == [hand[0]];
      Account(Opened(dispatched, hand[0], m));
      dispatched := dispatched + 1;
    }

    /** Valid, but for the client's sampling capability, noted and not yet announced. */
    ghost predicate Announcing(answer: Answer)
      reads this, reader
    {
      && reader.Valid() && Finite(env)
      && Told()
      && machine.asked == samplingSeq && machine.dispatched == dispatched
      && clientSupportsSampling == (if answer.Capabilities? then answer.sampling else machine.sampler)
      && stdout == Wires(log)
      && LinesRead(log) + hand == reader.delivered
      && reader.delivered + reader.Rest() == lines
    }

    /** The answer is the one due to m, the request being served. */
    ghost predicate IsDue(m: Message, answer: Answer)
      reads this
    {
      && !machine.raising && machine.stack.Push? && machine.stack.top.Serving?
      && machine.stack.top.m == m && !machine.stack.top.answered && NeedsAnswer(m)
      && Due(env, machine.stack.top.k, m, machine.stack.top.outcomes) == Some(answer)
    }

    /** _send_response or _send_error, after which the request is done. */
    method SendAnswer(m: Message, answer: Answer)
      requires Announcing(answer) && hand == [] && IsDue(m, answer)
      modifies `stdout, `log, `states, `machine, `hand
      ensures Valid() && hand == [] && !machine.raising
      ensures machine.stack == old(machine.stack.below)
      ensures stdout == old(stdout) + [if answer.NotFound? then ErrorResponse(m.id, -32601, answer.name)
                                       else Response(m.id, answer)]
      ensures Patience() >= old(Patience())
    {
      Respond(m, answer);
      Emit(Closed(machine.stack.top.k), []);
    }

    /** Put the answer on the wire. */
    method Respond(m: Message, answer: Answer)
      requires Announcing(answer) && hand == [] && IsDue(m, answer)
      modifies `stdout, `log, `states, `machine, `hand
      ensures Valid() && hand == [] && !machine.raising
      ensures machine.stack == old(Push(machine.stack.top.(answered := true), machine.stack.below))
      ensures stdout == old(stdout) + [if answer.NotFound? then ErrorResponse(m.id, -32601, answer.name)
                                       else Response(m.id, answer)]
      ensures Patience() >= old(Patience())
    {
      var wire := if answer.NotFound? then ErrorResponse(m.id, -32601, answer.name) else Response(m.id, answer);
      stdout := stdout + [wire];
      Account(Answered(machine.stack.top.k, m.id, answer));
    }

    /** _call_tool: no handler runs unless the policy allows the tool, and a handler's exception is an answer too. */
    method CallTool(k: nat, m: Message, ghost base: Stack) returns (status: Status)
      requires Valid() && hand == [] && !machine.raising
      requires machine.stack == Push(Serving(k, m, [], false, clientSupportsSampling), base)
      requires NeedsAnswer(m) && m.methodKey == Named("tools/call")
      modifies this, reader
      ensures Valid() && hand == [] && Remaining() <= old(Remaining())
      ensures machine.stack.Push? && machine.stack.below == base && IsDue(m, ToolResult(status))
      ensures Justified(env, k, m, status)
      ensures Patience() >= old(Patience())
      decreases Remaining(), 5
    {
      var tool := m.params.tool;
      if !Allows(env, tool) {
        assert Warranted(env, k, m, [], Denied);
        return Denied;
      }
      if tool.name !in env.handlers {
        assert Warranted(env, k, m, [], Unknown);
        return Unknown;
      }
      status := RunHandler(k, m, base);
    }

    /** The handler's run, one sampling call after another, until it returns or raises. */
    method RunHandler(k: nat, m: Message, ghost base: Stack) returns (status: Status)
      requires Valid() && hand == [] && !machine.raising && RunsHandler(env, m)
      requires machine.stack == Push(Serving(k, m, [], false, clientSupportsSampling), base)
      modifies this, reader
      ensures Valid() && hand == [] && Remaining() <= old(Remaining())
      ensures machine.stack.Push? && machine.stack.below == base && IsDue(m, ToolResult(status))
      ensures Warranted(env, k, m, machine.stack.top.outcomes, status)
      ensures Patience() >= old(Patience())
      decreases Remaining(), 4
    {
      hide Trace, Wires, LinesRead, Unlines, Lines, TextOf, GiveUps, Silences;
      var heard: seq<Outcome> := [];
      var holding := clientSupportsSampling;
      while env.handler(m, k, heard).Sample?
        invariant Valid() && hand == [] && Remaining() <= old(Remaining())
        invariant Patience() >= old(Patience())
        invariant !machine.raising && machine.stack == Push(Serving(k, m, heard, false, holding), base)
        decreases env.bound(k) - |heard|
      {
        StillBounded(env, m, k, heard);
        var o;
        o, holding := SampleOnce(k, m, heard, holding, base);
        heard := heard + [o];
      }
      status := StatusOf(env.handler(m, k, heard));
    }

    /** One sampling call of a handler, which may find no sampler to call. */
    method SampleOnce(k: nat, m: Message, heard: seq<Outcome>, held: bool, ghost base: Stack)
      returns (o: Outcome, holding: bool)
      requires Valid() && hand == [] && !machine.raising && RunsHandler(env, m) && env.handler(m, k, heard).Sample?
      requires machine.stack == Push(Serving(k, m, heard, false, held), base)
      modifies this, reader
      ensures Valid() && hand == [] && Remaining() <= old(Remaining()) && !machine.raising
      ensures machine.stack == Push(Serving(k, m, heard + [o], false, holding), base)
      ensures o.Unavailable? <==> !holding
      ensures holding == if env.handler(m, k, heard).lookUp then old(clientSupportsSampling) else held
      ensures Patience() >= old(Patience())
      decreases Remaining(), 3
    {
      hide Trace, Wires, LinesRead, Unlines, Lines, TextOf, GiveUps, Silences;
      holding := if env.handler(m, k, heard).lookUp then clientSupportsSampling else held;
      if holding {
        o := RequestSampling();
      } else {
        Emit(NoSampler(k), []);
        o := Unavailable;
      }
    }

    /**
      _request_sampling: send the request, then read until its own reply comes, serving
      the requests in between. Text comes back only from the reply that carries the id of
      this very call.
    */
    method RequestSampling() returns (o: Outcome)
      requires Valid() && hand == [] && !machine.raising && machine.stack.Push?
      requires MaySample(env, machine.stack.top) && FindsSampler(env, machine, machine.stack.top)
      modifies this, reader
      ensures Valid() && hand == [] && Remaining() <= old(Remaining()) && !machine.raising
      ensures machine.stack == Push(Learn(old(machine.stack.top.(holding := true)), o), old(machine.stack.below))
      ensures log != [] && EndedBy(log[|log| - 1], old(samplingSeq) + 1, o)
      ensures Patience() >= old(Patience())
      decreases Remaining(), 2
    {
      ghost var caller := Push(machine.stack.top.(holding := true), machine.stack.below);
      var n := SendRequest(caller);
      o := AwaitReply(n, caller);
    }

    /** The waiting loop of _request_sampling. */
    method AwaitReply(n: nat, ghost caller: Stack) returns (o: Outcome)
      requires Valid() && hand == [] && !machine.raising && machine.stack == Push(Waiting(n), caller)
      requires caller.Push? && caller.top.Serving?
      modifies this, reader
      ensures Valid() && hand == [] && Remaining() <= old(Remaining()) && !machine.raising
      ensures machine.stack == Push(Learn(caller.top, o), caller.below)
      ensures log != [] && EndedBy(log[|log| - 1], n, o)
      ensures Patience() >= old(Patience())
      decreases Remaining(), 1
    {
      hide Trace, Wires, LinesRead, Unlines, Lines, TextOf, GiveUps, Silences;
      var done := false;
      o := Raised;
      while !done
        invariant Valid() && hand == [] && Remaining() <= old(Remaining()) && !machine.raising
        invariant Patience() >= old(Patience())
        invariant !done ==> machine.stack == Push(Waiting(n), caller)
        invariant done ==> machine.stack == Push(Learn(caller.top, o), caller.below)
        invariant done ==> log != [] && EndedBy(log[|log| - 1], n, o)
        decreases !done, Remaining()
      {
        o, done := AwaitMessage(n, caller);
      }
    }

    /** One round of it: no message in time, or one to consider. */
    method AwaitMessage(n: nat, ghost caller: Stack) returns (o: Outcome, done: bool)
      requires Valid() && hand == [] && !machine.raising && machine.stack == Push(Waiting(n), caller)
      requires caller.Push? && caller.top.Serving?
      modifies this, reader
      ensures Valid() && hand == [] && Remaining() <= old(Remaining()) && !machine.raising
      ensures !done ==> machine.stack == Push(Waiting(n), caller) && Remaining() < old(Remaining())
      ensures done ==> machine.stack == Push(Learn(caller.top, o), caller.below)
      ensures done ==> log != [] && EndedBy(log[|log| - 1], n, o)
      ensures Patience() >= old(Patience())
      decreases Remaining(), 0
    {
      hide Trace, Wires, LinesRead, Unlines, Lines, TextOf, GiveUps, Silences;
      var msg, raised := ReadMessageBefore();
      done := true;
      if raised {
        Emit(Choked(n, hand[0]), []);
        o := Raised;
      } else if msg.None? {
        o := GiveUp(n, caller);
      } else {
        o, done := Consider(n, msg.value, caller);
      }
    }

    /** Send the request under the next number; the caller's handler holds the sampler it is using. */
    method SendRequest(ghost caller: Stack) returns (n: nat)
      requires Valid() && hand == [] && !machine.raising && machine.stack.Push?
      requires MaySample(env, machine.stack.top) && FindsSampler(env, machine, machine.stack.top)
      requires caller == Push(machine.stack.top.(holding := true), machine.stack.below)
      modifies `samplingSeq, `stdout, `log, `states, `machine, `hand
      ensures Valid() && hand == [] && !machine.raising
      ensures n == samplingSeq == old(samplingSeq) + 1
      ensures machine.stack == Push(Waiting(n), caller)
      ensures stdout == old(stdout) + [SamplingRequest(TextId("oc-sampling-" + Decimal(n)))]
      ensures Patience() >= old(Patience())
    {
      hide Trace, Wires, LinesRead, Unlines, Lines, TextOf, GiveUps, Silences;
      samplingSeq := samplingSeq + 1;
      n := samplingSeq;
      stdout := stdout + [SamplingRequest(SamplingId(n))];
      Account(Asked(n));
    }

    /** No reply in time, no more input, or the value null: the sampler returns the empty text. */
    method GiveUp(n: nat, ghost caller: Stack) returns (o: Outcome)
      requires Valid() && Held(None, false) && !machine.raising && machine.stack == Push(Waiting(n), caller)
      requires caller.Push? && caller.top.Serving? && (hand == [] ==> OutOfTime())
      modifies `stdout, `log, `states, `machine, `hand
      ensures Valid() && hand == [] && !machine.raising && o == Reply("")
      ensures machine.stack == Push(Learn(caller.top, o), caller.below)
      ensures log != [] && EndedBy(log[|log| - 1], n, o)
      ensures Patience() >= old(Patience()) + if old(hand) == [] then 1 else 0
    {
      hide Trace, Wires, LinesRead, Unlines, Lines, TextOf, GiveUps, Silences;
      Emit(if hand == [] then GaveUp(n) else NullReply(n, hand[0]), []);
      return Reply("");
    }

    /** One message read while waiting for reply n: the reply itself, a request to serve, or one to drop. */
    method Consider(n: nat, m: Message, ghost caller: Stack) returns (o: Outcome, replied: bool)
      requires Valid() && Held(Some(m), false) && !machine.raising && machine.stack == Push(Waiting(n), caller)
      requires caller.Push? && caller.top.Serving?
      modifies this, reader
      ensures Valid() && hand == [] && Remaining() <= old(Remaining()) && !machine.raising
      ensures !replied ==> machine.stack == Push(Waiting(n), caller)
      ensures replied ==> machine.stack == Push(Learn(caller.top, o), caller.below)
      ensures replied ==> log != [] && EndedBy(log[|log| - 1], n, o)
      ensures m.NotObject? ==> replied && o == Raised && stdout == old(stdout)
      ensures m.Object? && m.id == TextId("oc-sampling-" + Decimal(n)) ==>
                && replied && stdout == old(stdout)
                && o == match m.body
                        case Content(text) => Reply(text)
                        case Refused => Reply("")
                        case BadContent => Raised
      ensures m.Object? && m.id != TextId("oc-sampling-" + Decimal(n)) ==>
                if m.methodKey.Missing? then !replied && stdout == old(stdout)
                else Answers(m, old(dispatched), old(stdout), !replied) && (replied <==> Faulty(m))
      ensures Patience() >= old(Patience())
      decreases Remaining(), 10
    {
      hide Trace, Wires, LinesRead, Unlines, Lines, TextOf, GiveUps, Silences, Warranted, Decimal;
      o, replied := Raised, true;
      if m.NotObject? {
        Emit(Choked(n, hand[0]), []);
      } else if m.id == SamplingId(n) {
        o := ReplyOutcome(m.body);
        Emit(Replied(n, hand[0], m), []);
      } else if !m.methodKey.Missing? {
        replied := ServeBetween(n, m, caller);
      } else {
        Emit(Dropped(n, hand[0], m), []);
        replied := false;
      }
    }

    /** A request that came in while waiting for reply n: served and closed, or raising through the waiting call. */
    method ServeBetween(n: nat, m: Message, ghost caller: Stack) returns (raised: bool)
      requires Valid() && Held(Some(m), false) && !machine.raising && machine.stack == Push(Waiting(n), caller)
      requires caller.Push? && caller.top.Serving? && CanOpen(machine, m)
      modifies this, reader
      ensures Valid() && hand == [] && Remaining() <= old(Remaining()) && !machine.raising
      ensures raised == Faulty(m)
      ensures !raised ==> machine.stack == Push(Waiting(n), caller)
      ensures raised ==> machine.stack == Push(Learn(caller.top, Raised), caller.below)
      ensures raised ==> log != [] && EndedBy(log[|log| - 1], n, Raised)
      ensures Answers(m, old(dispatched), old(stdout), !raised)
      ensures Patience() >= old(Patience())
      decreases Remaining(), 9
    {
      hide Trace, Wires, LinesRead, Unlines, Lines, TextOf, GiveUps, Silences, Warranted;
      var ok := HandleRequest(m);
      raised := !ok;
      if raised {
        Emit(Unwound(n), []);
      }
    }

    /** How call n came to this outcome; it gives up for no reason but those of OutOfTime. */
    ghost predicate EndedBy(e: Event, n: nat, o: Outcome)
      reads this, reader
    {
      && Ends(e, n)
      && match e
         case GaveUp(_) => o == Reply("") && OutOfTime()
         case NullReply(_, _) => o == Reply("")
         case Replied(_, _, m) =>
           && m.Object? && m.id == TextId("oc-sampling-" + Decimal(n))
           && (match m.body
               case Content(text) => o == Reply(text)
               case Refused => o == Reply("")
               case BadContent => o == Raised)
         case _ => o == Raised
    }

    /**
      run: serve messages until the input ends or a line stops the loop. Nothing is left
      being served, the lines read are accounted for in order, and on the wire each id has
      been answered as often as a request that needs an answer came in with it. The loop
      stops early exactly if a line it reads itself holds null, makes the decoder raise or
      holds a message the dispatcher raises on; that line is the last one it reads itself.
    */
    method Serve() returns (crashed: bool)
      requires Valid() && log == [] && hand == []
      modifies this, reader
      ensures Valid() && hand == [] && Run(env, log) == Some(machine)
      ensures !machine.stack.Push? && machine.raising == crashed
      ensures LinesRead(log) + reader.Rest() == lines
      ensures AnyStops(env, TopLines(env, log)) <==> crashed || machine.stack.Over?
      ensures TopLines(env, log) != [] ==> !AnyStops(env, TopLines(env, log)[..|TopLines(env, log)| - 1])
      ensures !AnyStops(env, TopLines(env, log)) ==> LinesRead(log) == lines
      ensures forall id :: AnswersWith(stdout, id) == RequestsWith(Requests(log), id)
      ensures forall k :: 0 <= k < |Requests(log)| ==>
              AnswersTo(log, k) == if NeedsAnswer(Requests(log)[k]) then 1 else 0
    {
      assert machine == START;
      crashed := ServeLoop();
      TraceRuns(env, log, states);
      WholeRun(env, log);
    }

    method ServeLoop() returns (crashed: bool)
      requires Valid() && hand == [] && machine.stack.Idle? && !machine.raising
      modifies this, reader
      ensures Valid() && hand == [] && !machine.stack.Push? && machine.raising == crashed
      ensures LinesRead(log) + reader.Rest() == lines
      ensures !crashed && !machine.stack.Over? ==> reader.Rest() == []
    {
      hide Trace, Wires, LinesRead, Unlines, Lines, TextOf, GiveUps, Silences;
      var more := true;
      crashed := false;
      while more
        invariant Valid() && hand == [] && !machine.stack.Push? && machine.raising == crashed
        invariant more ==> machine.stack.Idle? && !crashed
        invariant !more && !crashed && !machine.stack.Over? ==> reader.Rest() == []
        decreases more, Remaining()
      {
        more, crashed := ServeOne();
      }
    }

    /** One round of it: serve a message, or find that there is none. */
    method ServeOne() returns (more: bool, crashed: bool)
      requires Valid() && hand == [] && machine.stack.Idle? && !machine.raising
      modifies this, reader
      ensures Valid() && hand == [] && !machine.stack.Push? && machine.raising == crashed
      ensures more ==> machine.stack.Idle? && !crashed && Remaining() < old(Remaining())
      ensures !more && !crashed && !machine.stack.Over? ==> reader.Rest() == []
    {
      var msg, raised := ReadMessage();
      if raised {
        Emit(Broke(hand[0]), []);
        return false, true;
      }
      if msg.None? {
        Finish();
        return false, false;
      }
      var ok := HandleRequest(msg.value);
      return ok, !ok;
    }

    /** No message: either the input is at its end, or the value null has been taken for that. */
    ghost method Finish()
      requires Valid() && Held(None, false) && machine.stack.Idle? && !machine.raising
      requires hand == [] ==> reader.AtEnd()
      modifies `log, `states, `machine, `hand
      ensures Valid() && hand == [] && !machine.stack.Push? && !machine.raising
      ensures machine.stack.Idle? ==> reader.Rest() == []
    {
      hide Trace, Wires, LinesRead, Unlines, Lines, TextOf, GiveUps, Silences;
      NothingPending();
      if hand != [] {
        Account(Nulled(hand[0]));
      }
    }
  }
}
