/**
  The server's conversation as an explicit stack machine: which event may follow
  which, with the requests being served and the sampling calls being waited for on one
  stack. It is the reference the recursive server is proved against.
*/
module Protocol {
  import opened Options
  import opened Text

  datatype Id = NullId | Number(n: real) | TextId(s: string) | OtherId(repr: string)

  datatype Method = Missing | Named(name: string) | NotText

  /** The tool asked for; a name that is not text fits no result. */
  datatype ToolName = Tool(name: string) | NoText

  /** What the dispatcher looks at in the parameters. */
  datatype Params = NotMapping | Mapping(sampling: bool, tool: ToolName)

  /** What the message says when it is taken as the reply to a sampling request. */
  datatype Body = Refused | Content(text: string) | BadContent

  datatype Message = NotObject | Object(id: Id, methodKey: Method, params: Params, body: Body)

  /**
    What a line holds: nothing, no JSON, the JSON value null (which the reader returns as
    it does the end of the input), JSON on which the decoder raises something other than
    its own error (nested too deep, a number too long), or a message.
  */
  datatype Decoded = Blank | Garbage | Null | Raises | Json(m: Message)

  /** What a tool handler gets back from one sampling call. */
  datatype Outcome = Reply(text: string) | Raised | Unavailable

  /**
    What a tool handler does next, given the outcomes of its sampling calls so far. To
    sample it either looks up the registered sampler now or uses what it found before.
  */
  datatype Action = Sample(lookUp: bool) | Return(error: bool) | Fail

  datatype Status = Denied | Unknown | Passed | Failed

  datatype Answer = Pong | Capabilities(sampling: bool) | ToolList | ToolResult(status: Status) | NotFound(name: string)

  /** Everything the conversation depends on besides the input; handler gets the message and the request's number. */
  datatype Env = Env(decode: string -> Decoded,
                     allowedTools: set<string>, deniedTools: set<string>, alwaysAllowed: set<string>,
                     handlers: set<string>,
                     handler: (Message, nat, seq<Outcome>) -> Action, bound: nat -> nat,
                     expired: nat -> bool)

  /** Handlers sample finitely often. */
  ghost predicate Finite(env: Env)
  {
    forall m, k: nat, outcomes :: |outcomes| >= env.bound(k) ==> !env.handler(m, k, outcomes).Sample?
  }

  const NOTIFICATION := "notifications/"

  predicate IsNotification(m: Message)
  {
    m.Object? && m.methodKey.Named? && NOTIFICATION <= m.methodKey.name
  }

  /** Messages on which the dispatcher itself raises before answering. */
  predicate Faulty(m: Message)
  {
    || m.NotObject?
    || m.methodKey.NotText?
    || (m.methodKey == Named("initialize") && m.params.NotMapping?)
    || (m.methodKey == Named("tools/call") && (m.params.NotMapping? || m.params.tool.NoText?))
  }

  predicate NeedsAnswer(m: Message)
  {
    !Faulty(m) && !IsNotification(m)
  }

  predicate Allows(env: Env, tool: ToolName)
  {
    tool.Tool? && tool.name !in env.deniedTools && (tool.name in env.allowedTools || tool.name in env.alwaysAllowed)
  }

  predicate RunsHandler(env: Env, m: Message)
  {
    && NeedsAnswer(m) && m.methodKey == Named("tools/call")
    && Allows(env, m.params.tool) && m.params.tool.name in env.handlers
  }

  /** The answer due, or none while the handler is still to sample. */
  function Due(env: Env, k: nat, m: Message, outcomes: seq<Outcome>): Option<Answer>
    requires NeedsAnswer(m)
  {
    if m.methodKey == Named("ping") then Some(Pong)
    else if m.methodKey == Named("initialize") then Some(Capabilities(m.params.sampling))
    else if m.methodKey == Named("tools/list") then Some(ToolList)
    else if m.methodKey == Named("tools/call") then
      if !Allows(env, m.params.tool) then Some(ToolResult(Denied))
      else if m.params.tool.name !in env.handlers then Some(ToolResult(Unknown))
      else match env.handler(m, k, outcomes)
        case Sample(_) => None
        case Return(error) => Some(ToolResult(if error then Failed else Passed))
        case Fail => Some(ToolResult(Failed))
    else Some(NotFound(if m.methodKey.Named? then m.methodKey.name else ""))
  }

  function SamplingId(n: nat): Id
  {
    TextId("oc-sampling-" + Decimal(n))
  }

  /** Different sampling calls carry different ids. */
  lemma {:induction false} SamplingIdInjective(m: nat, n: nat)
    requires SamplingId(m) == SamplingId(n)
    ensures m == n
  {
    var prefix := "oc-sampling-";
    assert (prefix + Decimal(m))[|prefix|..] == Decimal(m);
    assert (prefix + Decimal(n))[|prefix|..] == Decimal(n);
    DecimalInjective(m, n);
  }

  function ReplyOutcome(body: Body): Outcome
  {
    match body
    case Refused => Reply("")
    case Content(text) => Reply(text)
    case BadContent => Raised
  }

  // ---- The machine ----

  datatype Event =
    | Skipped(line: string)
    | ParseError(line: string)
    | Opened(k: nat, line: string, m: Message)
    | Answered(k: nat, id: Id, answer: Answer)
    | Closed(k: nat)
    | Aborted(k: nat)
    | NoSampler(k: nat)
    | Asked(n: nat)
    | Replied(n: nat, line: string, m: Message)
    | Choked(n: nat, line: string)
    | Dropped(n: nat, line: string, m: Message)
    | GaveUp(n: nat)
    | Unwound(n: nat)
    | Nulled(line: string)
    | Broke(line: string)
    | NullReply(n: nat, line: string)

  /** A request with what its handler has learnt and whether it holds a sampler, or a sampling call. */
  datatype Frame =
    | Serving(k: nat, m: Message, outcomes: seq<Outcome>, answered: bool, holding: bool)
    | Waiting(n: nat)

  /** What is going on, innermost first; Over once the main loop has taken a line for the end of the input. */
  datatype Stack = Idle | Over | Push(top: Frame, below: Stack)

  /** sampler says whether one is registered; raising is set while an exception travels. */
  datatype Machine = Machine(dispatched: nat, asked: nat, sampler: bool, raising: bool, stack: Stack)

  const START := Machine(0, 0, false, false, Idle)

  predicate Reading(s: Machine)
  {
    !s.raising && (s.stack.Idle? || (s.stack.Push? && s.stack.top.Waiting?))
  }

  /** An interleaved message is served only if it is not the awaited reply and names a method. */
  predicate CanOpen(s: Machine, m: Message)
  {
    Reading(s) && (s.stack.Push? ==> m.Object? && m.id != SamplingId(s.stack.top.n) && !m.methodKey.Missing?)
  }

  /** Request k is the innermost thing going on. */
  predicate Serves(s: Machine, k: nat)
  {
    !s.raising && s.stack.Push? && s.stack.top.Serving? && s.stack.top.k == k
  }

  /** The innermost thing is the wait for call n, and below it is the request that made the call. */
  predicate Waits(s: Machine, n: nat)
  {
    s.stack.Push? && s.stack.top == Waiting(n) && s.stack.below.Push? && s.stack.below.top.Serving?
  }

  /** The handler learns the outcome of a sampling call. */
  function Learn(f: Frame, o: Outcome): Frame
    requires f.Serving?
  {
    f.(outcomes := f.outcomes + [o])
  }

  /** The wait on top ends. */
  function Resume(s: Machine, o: Outcome): Machine
    requires s.stack.Push? && s.stack.below.Push? && s.stack.below.top.Serving?
  {
    s.(raising := false, stack := Push(Learn(s.stack.below.top, o), s.stack.below.below))
  }

  predicate MaySample(env: Env, f: Frame)
  {
    f.Serving? && !f.answered && RunsHandler(env, f.m) && env.handler(f.m, f.k, f.outcomes).Sample?
  }

  /** Does the request's next sampling call find a sampler to use? */
  predicate FindsSampler(env: Env, s: Machine, f: Frame)
    requires MaySample(env, f)
  {
    if env.handler(f.m, f.k, f.outcomes).lookUp then s.sampler else f.holding
  }

  /** When an event may happen. */
  predicate Enabled(env: Env, s: Machine, e: Event)
  {
    match e
    case Skipped(line) => Reading(s) && env.decode(line) == Blank
    case ParseError(line) => Reading(s) && env.decode(line) == Garbage
    case Opened(k, line, m) => CanOpen(s, m) && k == s.dispatched && env.decode(line) == Json(m)
    case Answered(k, id, answer) =>
      && Serves(s, k) && !s.stack.top.answered && NeedsAnswer(s.stack.top.m) && id == s.stack.top.m.id
      && Due(env, k, s.stack.top.m, s.stack.top.outcomes) == Some(answer)
    case Closed(k) => Serves(s, k) && (s.stack.top.answered || IsNotification(s.stack.top.m))
    case Aborted(k) => Serves(s, k) && !s.stack.top.answered && Faulty(s.stack.top.m)
    case NoSampler(k) => Serves(s, k) && MaySample(env, s.stack.top) && !FindsSampler(env, s, s.stack.top)
    case Asked(n) =>
      && !s.raising && s.stack.Push? && n == s.asked + 1
      && MaySample(env, s.stack.top) && FindsSampler(env, s, s.stack.top)
    case Replied(n, line, m) =>
      !s.raising && Waits(s, n) && env.decode(line) == Json(m) && m.Object? && m.id == SamplingId(n)
    case Choked(n, line) => !s.raising && Waits(s, n) && env.decode(line) in {Json(NotObject), Raises}
    case Dropped(n, line, m) =>
      && !s.raising && Waits(s, n)
      && env.decode(line) == Json(m) && m.Object? && m.id != SamplingId(n) && m.methodKey.Missing?
    case GaveUp(n) => !s.raising && Waits(s, n)
    case Unwound(n) => s.raising && Waits(s, n)
    case Nulled(line) => Reading(s) && s.stack.Idle? && env.decode(line) == Null
    case Broke(line) => Reading(s) && s.stack.Idle? && env.decode(line) == Raises
    case NullReply(n, line) => !s.raising && Waits(s, n) && env.decode(line) == Null
  }

  /** What an event changes. */
  function After(env: Env, s: Machine, e: Event): Machine
    requires Enabled(env, s, e)
  {
    match e
    case Skipped(_) => s
    case ParseError(_) => s
    case Dropped(_, _, _) => s
    case Opened(k, _, m) => s.(dispatched := k + 1, stack := Push(Serving(k, m, [], false, s.sampler), s.stack))
    case Answered(_, _, answer) =>
      s.(stack := Push(s.stack.top.(answered := true), s.stack.below),
         sampler := if answer.Capabilities? then answer.sampling else s.sampler)
    case Closed(_) => s.(stack := s.stack.below)
    case Aborted(_) => s.(stack := s.stack.below, raising := true)
    case NoSampler(_) => s.(stack := Push(Learn(s.stack.top, Unavailable).(holding := false), s.stack.below))
    case Asked(n) => s.(asked := n, stack := Push(Waiting(n), Push(s.stack.top.(holding := true), s.stack.below)))
    case Replied(_, _, m) => Resume(s, ReplyOutcome(m.body))
    case Choked(_, _) => Resume(s, Raised)
    case GaveUp(_) => Resume(s, Reply(""))
    case Unwound(_) => Resume(s, Raised)
    case Nulled(_) => s.(stack := Over)
    case Broke(_) => s.(raising := true)
    case NullReply(_, _) => Resume(s, Reply(""))
  }

  function Run(env: Env, log: seq<Event>): Option<Machine>
  {
    if log == [] then Some(START)
    else
      var e := log[|log| - 1];
      match Run(env, log[..|log| - 1])
      case None => None
      case Some(s) => if Enabled(env, s, e) then Some(After(env, s, e)) else None
  }

  lemma {:induction false} RunSnoc(env: Env, log: seq<Event>, e: Event)
    ensures Run(env, log + [e]) ==
            match Run(env, log)
            case None => None
            case Some(s) => if Enabled(env, s, e) then Some(After(env, s, e)) else None
  {
    assert (log + [e])[..|log|] == log;
  }

  /** Event i takes the machine from one listed state to the next. */
  ghost predicate Follows(env: Env, log: seq<Event>, states: seq<Machine>, i: nat)
    requires |states| == |log| + 1 && i < |log|
  {
    Enabled(env, states[i], log[i]) && states[i + 1] == After(env, states[i], log[i])
  }

  /** The machine's states before, between and after the events of a log. */
  ghost predicate Trace(env: Env, log: seq<Event>, states: seq<Machine>)
  {
    && |states| == |log| + 1 && states[0] == START
    && forall i :: 0 <= i < |log| ==> Follows(env, log, states, i)
  }

  lemma {:induction false} TraceSnoc(env: Env, log: seq<Event>, states: seq<Machine>, e: Event)
    requires Trace(env, log, states) && Enabled(env, states[|log|], e)
    ensures Trace(env, log + [e], states + [After(env, states[|log|], e)])
  {
    var log', states' := log + [e], states + [After(env, states[|log|], e)];
    forall i | 0 <= i < |log'|
      ensures Follows(env, log', states', i)
    {
      if i < |log| {
        assert Follows(env, log, states, i);
      }
    }
  }

  lemma {:induction false} TraceRuns(env: Env, log: seq<Event>, states: seq<Machine>)
    requires Trace(env, log, states)
    ensures Run(env, log) == Some(states[|log|])
  {
    if log != [] {
      var n := |log| - 1;
      var log', states' := log[..n], states[..n + 1];
      forall i | 0 <= i < n
        ensures Follows(env, log', states', i)
      {
        assert Follows(env, log, states, i);
      }
      assert Follows(env, log, states, n);
      TraceRuns(env, log', states');
    }
  }

  // ---- What every accepted conversation keeps ----

  /**
    Requests and waits alternate, newer ones above older ones; below a wait is an
    unanswered request. Requests are numbered below k and sampling calls up to n.
  */
  predicate Nested(stack: Stack, k: int, n: int)
  {
    match stack
    case Idle => true
    case Over => true
    case Push(Serving(j, _, _, _, _), below) =>
      j < k && !below.Over? && (below.Push? ==> below.top.Waiting?) && Nested(below, j, n)
    case Push(Waiting(i), below) =>
      1 <= i <= n && below.Push? && below.top.Serving? && !below.top.answered && Nested(below, k, i - 1)
  }

  predicate WellFormed(s: Machine)
  {
    Nested(s.stack, s.dispatched, s.asked) && (s.raising && s.stack.Push? ==> s.stack.top.Waiting?)
  }

  lemma {:induction false} NestedWider(stack: Stack, k: int, n: int, k': int, n': int)
    requires Nested(stack, k, n) && k <= k' && n <= n'
    ensures Nested(stack, k', n')
  {
    match stack
    case Idle =>
    case Over =>
    case Push(Serving(j, _, _, _, _), below) => NestedWider(below, j, n, j, n');
    case Push(Waiting(i), below) => NestedWider(below, k, i - 1, k', i - 1);
  }

  lemma {:induction false} StepWellFormed(env: Env, s: Machine, e: Event)
    requires WellFormed(s) && Enabled(env, s, e)
    ensures WellFormed(After(env, s, e))
  {
    match s.stack
    case Idle =>
    case Over =>
    case Push(Serving(k, _, _, _, _), below) =>
      NestedWider(below, k, s.asked, s.dispatched, s.asked);
    case Push(Waiting(n), below) =>
      NestedWider(below, s.dispatched, n - 1, s.dispatched, s.asked);
  }

  lemma {:induction false} RunWellFormed(env: Env, log: seq<Event>)
    requires Run(env, log).Some?
    ensures WellFormed(Run(env, log).value)
  {
    if log != [] {
      var init := log[..|log| - 1];
      RunWellFormed(env, init);
      StepWellFormed(env, Run(env, init).value, log[|log| - 1]);
    }
  }

  /** The messages dispatched, in order; the k-th is request number k. */
  function Requests(log: seq<Event>): seq<Message>
  {
    if log == [] then []
    else
      var e := log[|log| - 1];
      Requests(log[..|log| - 1]) + if e.Opened? then [e.m] else []
  }

  /** How many answers request k got. */
  function AnswersTo(log: seq<Event>, k: nat): nat
  {
    if log == [] then 0
    else
      var e := log[|log| - 1];
      AnswersTo(log[..|log| - 1], k) + if e.Answered? && e.k == k then 1 else 0
  }

  predicate OnStack(stack: Stack, k: nat)
  {
    stack.Push? && ((stack.top.Serving? && stack.top.k == k) || OnStack(stack.below, k))
  }

  /** A request numbered at least k is not among requests numbered below k. */
  lemma {:induction false} NotOnStack(stack: Stack, k: int, n: int, j: nat)
    requires Nested(stack, k, n) && j >= k
    ensures !OnStack(stack, j)
  {
    match stack
    case Idle =>
    case Over =>
    case Push(Serving(i, _, _, _, _), below) => NotOnStack(below, i, n, j);
    case Push(Waiting(i), below) => NotOnStack(below, k, i - 1, j);
  }

  /** Every frame serves the message its number says, and is marked answered only if that needs an answer. */
  predicate FramesMatch(stack: Stack, requests: seq<Message>)
  {
    stack.Push? ==>
      && FramesMatch(stack.below, requests)
      && (stack.top.Serving? ==>
            && stack.top.k < |requests| && stack.top.m == requests[stack.top.k]
            && (stack.top.answered ==> NeedsAnswer(stack.top.m)))
  }

  lemma {:induction false} FramesMatchMore(stack: Stack, requests: seq<Message>, m: Message)
    requires FramesMatch(stack, requests)
    ensures FramesMatch(stack, requests + [m])
  {
    if stack.Push? {
      FramesMatchMore(stack.below, requests, m);
    }
  }

  /**
    How many answers request k has had, told from where it is now: only the innermost
    request can have been answered and be still on the stack.
  */
  function Owed(s: Machine, requests: seq<Message>, k: nat): nat
  {
    if k >= |requests| then 0
    else if OnStack(s.stack, k) then
      (if s.stack.top.Serving? && s.stack.top.k == k && s.stack.top.answered then 1 else 0)
    else if NeedsAnswer(requests[k]) then 1 else 0
  }

  function MoreRequests(e: Event): seq<Message>
  {
    if e.Opened? then [e.m] else []
  }

  lemma {:induction false} StepMatch(env: Env, s: Machine, e: Event, requests: seq<Message>)
    requires Enabled(env, s, e) && |requests| == s.dispatched && FramesMatch(s.stack, requests)
    ensures |requests + MoreRequests(e)| == After(env, s, e).dispatched
    ensures FramesMatch(After(env, s, e).stack, requests + MoreRequests(e))
  {
    if e.Opened? {
      FramesMatchMore(s.stack, requests, e.m);
    } else {
      assert requests + MoreRequests(e) == requests;
    }
  }

  lemma {:induction false} StepOwed(env: Env, s: Machine, e: Event, requests: seq<Message>, k: nat)
    requires WellFormed(s) && Enabled(env, s, e) && |requests| == s.dispatched && FramesMatch(s.stack, requests)
    ensures Owed(After(env, s, e), requests + MoreRequests(e), k) ==
            Owed(s, requests, k) + if e.Answered? && e.k == k then 1 else 0
  {
    var t := After(env, s, e);
    if e.Opened? {
      NotOnStack(s.stack, s.dispatched, s.asked, s.dispatched);
    } else {
      assert requests + MoreRequests(e) == requests;
      if s.stack.Push? && s.stack.top.Serving? {
        NotOnStack(s.stack.below, s.stack.top.k, s.asked, s.stack.top.k);
        if e.Asked? {
          assert OnStack(t.stack, k) == OnStack(t.stack.below, k) == OnStack(s.stack, k);
        }
      } else if s.stack.Push? {
        assert OnStack(s.stack, k) == OnStack(s.stack.below, k);
        assert OnStack(s.stack.below, k) == (s.stack.below.top.k == k || OnStack(s.stack.below.below, k));
      }
    }
  }

  /** At every point of an accepted conversation each request has had exactly the answers it is owed. */
  lemma {:induction false} AnswersCounted(env: Env, log: seq<Event>, k: nat)
    requires Run(env, log).Some?
    ensures |Requests(log)| == Run(env, log).value.dispatched
    ensures FramesMatch(Run(env, log).value.stack, Requests(log))
    ensures AnswersTo(log, k) == Owed(Run(env, log).value, Requests(log), k)
  {
    if log != [] {
      var init := log[..|log| - 1];
      AnswersCounted(env, init, k);
      RunWellFormed(env, init);
      StepMatch(env, Run(env, init).value, log[|log| - 1], Requests(init));
      StepOwed(env, Run(env, init).value, log[|log| - 1], Requests(init), k);
    }
  }

  /**
    Response discipline: once nothing is being served, a dispatched message has had
    exactly one answer if it is neither a notification nor one the dispatcher raises on,
    and none otherwise.
  */
  lemma {:induction false} ExactlyOneAnswer(env: Env, log: seq<Event>, k: nat)
    requires Run(env, log).Some? && !Run(env, log).value.stack.Push? && k < |Requests(log)|
    ensures AnswersTo(log, k) == if NeedsAnswer(Requests(log)[k]) then 1 else 0
  {
    AnswersCounted(env, log, k);
  }

  /**
    Why a tool call gets a status: Denied if the tool is denied, or neither allowed nor
    always allowed; Unknown if an allowed tool has no handler; Passed if the handler,
    having heard the outcomes, returns without an error, and Failed if it returns one or
    raises.
  */
  predicate Warranted(env: Env, k: nat, m: Message, outcomes: seq<Outcome>, status: Status)
  {
    && m.Object? && m.params.Mapping? && m.params.tool.Tool?
    && var tool := m.params.tool.name;
       var denied := tool in env.deniedTools || !(tool in env.allowedTools || tool in env.alwaysAllowed);
       match status
       case Denied => denied
       case Unknown => !denied && tool !in env.handlers
       case Passed => !denied && tool in env.handlers && env.handler(m, k, outcomes) == Return(false)
       case Failed => !denied && tool in env.handlers && env.handler(m, k, outcomes) in {Return(true), Fail}
  }

  /** Some outcomes of the handler's sampling calls warrant the status. */
  ghost predicate Justified(env: Env, k: nat, m: Message, status: Status)
  {
    exists outcomes :: Warranted(env, k, m, outcomes, status)
  }

  /** Every method is answered in its own way; a method the server does not know, or none, is not found. */
  lemma {:induction false} AnswerByMethod(env: Env, log: seq<Event>, i: nat)
    requires Run(env, log).Some? && i < |log| && log[i].Answered?
    ensures log[i].k < |Requests(log)| && Requests(log)[log[i].k].Object?
    ensures match Requests(log)[log[i].k].methodKey
            case Missing => log[i].answer == NotFound("")
            case NotText => false
            case Named(name) =>
              var m, answer := Requests(log)[log[i].k], log[i].answer;
              && !("notifications/" <= name)
              && (name == "ping" ==> answer == Pong)
              && (name == "initialize" ==> m.params.Mapping? && answer == Capabilities(m.params.sampling))
              && (name == "tools/list" ==> answer == ToolList)
              && (name == "tools/call" ==>
                    answer.ToolResult? && Justified(env, log[i].k, m, answer.status))
              && (name !in ["ping", "initialize", "tools/list", "tools/call"] ==> answer == NotFound(name))
  {
    hide Run, Requests;
    AnswerIsForItsRequest(env, log, i);
    var k := log[i].k;
    var m := Requests(log)[k];
    var outcomes :| Due(env, k, m, outcomes) == Some(log[i].answer);
    if m.methodKey == Named("tools/call") {
      DueToTool(env, k, m, outcomes);
    }
  }

  /** What is due for a tool call, if anything yet, is a result with exactly the status that is warranted. */
  lemma {:induction false} DueToTool(env: Env, k: nat, m: Message, outcomes: seq<Outcome>)
    requires NeedsAnswer(m) && m.methodKey == Named("tools/call")
    ensures Due(env, k, m, outcomes).Some? ==> Due(env, k, m, outcomes).value.ToolResult?
    ensures forall status :: Due(env, k, m, outcomes) == Some(ToolResult(status)) <==>
                               Warranted(env, k, m, outcomes, status)
  {
  }

  /** An answer carries the id of its request, and answers the request with what is due. */
  lemma {:induction false} AnswerIsForItsRequest(env: Env, log: seq<Event>, i: nat)
    requires Run(env, log).Some? && i < |log| && log[i].Answered?
    ensures log[i].k < |Requests(log)| && NeedsAnswer(Requests(log)[log[i].k])
    ensures log[i].id == Requests(log)[log[i].k].id
    ensures exists outcomes :: Due(env, log[i].k, Requests(log)[log[i].k], outcomes) == Some(log[i].answer)
  {
    var n := |log| - 1;
    var init := log[..n];
    if i < n {
      AnswerIsForItsRequest(env, init, i);
    } else {
      AnswersCounted(env, init, 0);
      var f := Run(env, init).value.stack.top;
      assert Due(env, f.k, f.m, f.outcomes) == Some(log[i].answer);
    }
  }

  /** Responses nest: when request k is answered, every request opened after it is already settled. */
  lemma {:induction false} InnerBeforeOuter(env: Env, log: seq<Event>, e: Event, j: nat)
    requires e.Answered? && Run(env, log + [e]).Some?
    requires e.k < j < |Requests(log)|
    ensures AnswersTo(log, j) == if NeedsAnswer(Requests(log)[j]) then 1 else 0
  {
    RunSnoc(env, log, e);
    var s := Run(env, log).value;
    RunWellFormed(env, log);
    AnswersCounted(env, log, j);
    NotOnStack(s.stack.below, s.stack.top.k, s.asked, j);
  }

  /** An exception is travelling only right after a message the dispatcher raises on, or a line the decoder does. */
  lemma {:induction false} RaisingIsFaulty(env: Env, log: seq<Event>)
    requires Run(env, log).Some? && Run(env, log).value.raising
    ensures log != [] && (log[|log| - 1].Aborted? || log[|log| - 1].Broke?)
    ensures log[|log| - 1].Broke? ==> env.decode(log[|log| - 1].line) == Raises
    ensures log[|log| - 1].Aborted? ==>
              log[|log| - 1].k < |Requests(log)| && Faulty(Requests(log)[log[|log| - 1].k])
  {
    var init := log[..|log| - 1];
    AnswersCounted(env, init, 0);
    assert Requests(log) == Requests(init);
  }

  // ---- Sampling calls ----

  /** The sampling calls sent, in order. */
  function Asks(log: seq<Event>): seq<nat>
  {
    if log == [] then []
    else
      var e := log[|log| - 1];
      Asks(log[..|log| - 1]) + if e.Asked? then [e.n] else []
  }

  predicate Ends(e: Event, n: nat)
  {
    (e.Replied? || e.Choked? || e.GaveUp? || e.NullReply? || e.Unwound?) && e.n == n
  }

  /** How often the wait for call n has ended. */
  function EndsOf(log: seq<Event>, n: nat): nat
  {
    if log == [] then 0
    else EndsOf(log[..|log| - 1], n) + if Ends(log[|log| - 1], n) then 1 else 0
  }

  /** How many sampling calls have been given up. */
  function GiveUps(log: seq<Event>): nat
  {
    if log == [] then 0
    else GiveUps(log[..|log| - 1]) + if log[|log| - 1].GaveUp? then 1 else 0
  }

  predicate WaitingFor(stack: Stack, n: nat)
  {
    stack.Push? && (stack.top == Waiting(n) || WaitingFor(stack.below, n))
  }

  /** A call numbered above n is not among calls numbered up to n. */
  lemma {:induction false} NotWaitingFor(stack: Stack, k: int, n: int, j: nat)
    requires Nested(stack, k, n) && j > n
    ensures !WaitingFor(stack, j)
  {
    match stack
    case Idle =>
    case Over =>
    case Push(Serving(i, _, _, _, _), below) => NotWaitingFor(below, i, n, j);
    case Push(Waiting(i), below) => NotWaitingFor(below, k, i - 1, j);
  }

  lemma {:induction false} StepWaiting(env: Env, s: Machine, e: Event, n: nat)
    requires WellFormed(s) && Enabled(env, s, e)
    ensures After(env, s, e).asked == s.asked + (if e.Asked? then 1 else 0)
    ensures WaitingFor(After(env, s, e).stack, n) <==> (e == Asked(n) || (WaitingFor(s.stack, n) && !Ends(e, n)))
    ensures Ends(e, n) ==> WaitingFor(s.stack, n)
    ensures WaitingFor(s.stack, n) ==> 1 <= n <= s.asked
  {
    if n > s.asked {
      NotWaitingFor(s.stack, s.dispatched, s.asked, n);
    }
    if s.stack.Push? && s.stack.top.Waiting? {
      NotWaitingFor(s.stack.below, s.dispatched, s.stack.top.n - 1, s.stack.top.n);
    }
    if WaitingFor(s.stack, n) {
      WaitsPositive(s.stack, s.dispatched, s.asked, n);
    }
  }

  lemma {:induction false} WaitsPositive(stack: Stack, k: int, n: int, j: nat)
    requires Nested(stack, k, n) && WaitingFor(stack, j)
    ensures 1 <= j
  {
    match stack
    case Idle =>
    case Over =>
    case Push(Serving(i, _, _, _, _), below) => WaitsPositive(below, i, n, j);
    case Push(Waiting(i), below) =>
      if i != j {
        WaitsPositive(below, k, i - 1, j);
      }
  }

  /**
    Sampling ids never repeat, and every sampling call ends exactly once: the calls are
    numbered 1, 2, 3 and so on, and each that is no longer waited for has had one ending.
  */
  lemma {:induction false} SamplingDiscipline(env: Env, log: seq<Event>, n: nat)
    requires Run(env, log).Some?
    ensures |Asks(log)| == Run(env, log).value.asked
    ensures forall i :: 0 <= i < |Asks(log)| ==> Asks(log)[i] == i + 1
    ensures EndsOf(log, n) == if 1 <= n <= |Asks(log)| && !WaitingFor(Run(env, log).value.stack, n) then 1 else 0
    ensures WaitingFor(Run(env, log).value.stack, n) ==> 1 <= n <= |Asks(log)|
  {
    if log != [] {
      var init := log[..|log| - 1];
      SamplingDiscipline(env, init, n);
      RunWellFormed(env, init);
      StepWaiting(env, Run(env, init).value, log[|log| - 1], n);
    }
  }

  /** A reply that is accepted carries the id of the innermost pending call, which was sent and not yet ended. */
  lemma {:induction false} ReplyMatchesCall(env: Env, log: seq<Event>, e: Event)
    requires e.Replied? && Run(env, log + [e]).Some?
    ensures e.m.Object? && e.m.id == SamplingId(e.n)
    ensures Run(env, log).Some? && Waits(Run(env, log).value, e.n)
    ensures 1 <= e.n <= |Asks(log)| && EndsOf(log, e.n) == 0
    ensures forall n :: 1 <= n <= |Asks(log)| && n != e.n ==> e.m.id != SamplingId(n)
  {
    RunSnoc(env, log, e);
    SamplingDiscipline(env, log, e.n);
    forall n | 1 <= n <= |Asks(log)| && e.m.id == SamplingId(n)
      ensures n == e.n
    {
      SamplingIdInjective(n, e.n);
    }
  }

  /**
    What a reply brings the handler that asked: its text, the empty text if the host
    refused, an exception if there is no content to read. Nothing else changes.
  */
  lemma {:induction false} ReplyReachesHandler(env: Env, log: seq<Event>, n: nat, line: string, m: Message)
    requires Run(env, log + [Replied(n, line, m)]).Some?
    ensures m.Object? && env.decode(line) == Json(m)
    ensures Run(env, log).Some? && Waits(Run(env, log).value, n)
    ensures var caller, t := Run(env, log).value.stack.below, Run(env, log + [Replied(n, line, m)]).value;
            && t.stack.Push? && t.stack.below == caller.below && t.stack.top.Serving?
            && t.stack.top.(outcomes := caller.top.outcomes) == caller.top
            && (forall text :: m.body == Content(text) ==> t.stack.top.outcomes == caller.top.outcomes + [Reply(text)])
            && (m.body.Refused? ==> t.stack.top.outcomes == caller.top.outcomes + [Reply("")])
            && (m.body.BadContent? ==> t.stack.top.outcomes == caller.top.outcomes + [Raised])
            && t.dispatched == Run(env, log).value.dispatched && t.asked == Run(env, log).value.asked
            && t.sampler == Run(env, log).value.sampler && !t.raising
  {
    hide Run;
    RunSnoc(env, log, Replied(n, line, m));
  }

  // ---- What goes over the wire ----

  datatype Wire =
    | Response(id: Id, answer: Answer)
    | ErrorResponse(id: Id, code: int, name: string)
    | SamplingRequest(id: Id)

  function WireOf(e: Event): seq<Wire>
  {
    match e
    case ParseError(_) => [ErrorResponse(NullId, -32700, "Parse error")]
    case Answered(_, id, NotFound(name)) => [ErrorResponse(id, -32601, name)]
    case Answered(_, id, answer) => [Response(id, answer)]
    case Asked(n) => [SamplingRequest(SamplingId(n))]
    case _ => []
  }

  function Wires(log: seq<Event>): seq<Wire>
  {
    if log == [] then [] else Wires(log[..|log| - 1]) + WireOf(log[|log| - 1])
  }

  /** The input lines accounted for by the log. */
  function LineOf(e: Event): seq<string>
  {
    if e.Skipped? || e.ParseError? || e.Opened? || e.Replied? || e.Choked? || e.Dropped?
       || e.Nulled? || e.Broke? || e.NullReply? then [e.line] else []
  }

  function LinesRead(log: seq<Event>): seq<string>
  {
    if log == [] then [] else LinesRead(log[..|log| - 1]) + LineOf(log[|log| - 1])
  }

  /** Is this an answer to some request, successful or not? */
  predicate IsAnswer(w: Wire)
  {
    w.Response? || (w.ErrorResponse? && w.code != -32700)
  }

  function AnswersWith(wires: seq<Wire>, id: Id): nat
  {
    if wires == [] then 0
    else
      var w := wires[|wires| - 1];
      AnswersWith(wires[..|wires| - 1], id) + if IsAnswer(w) && w.id == id then 1 else 0
  }

  function RequestsWith(requests: seq<Message>, id: Id): nat
  {
    if requests == [] then 0
    else
      var m := requests[|requests| - 1];
      RequestsWith(requests[..|requests| - 1], id) + if NeedsAnswer(m) && m.id == id then 1 else 0
  }

  /** The requests being served that are still owed an answer under this id. */
  function OpenWith(stack: Stack, id: Id): nat
  {
    match stack
    case Idle => 0
    case Over => 0
    case Push(f, below) => OpenWith(below, id) + OwedWith(f, id)
  }

  function OwedWith(f: Frame, id: Id): nat
  {
    if f.Serving? && !f.answered && NeedsAnswer(f.m) && f.m.id == id then 1 else 0
  }

  lemma {:induction false} StepCounts(env: Env, s: Machine, e: Event, id: Id)
    requires Enabled(env, s, e)
    ensures OpenWith(After(env, s, e).stack, id) + (if e.Answered? && e.id == id then 1 else 0)
            == OpenWith(s.stack, id) + if e.Opened? && NeedsAnswer(e.m) && e.m.id == id then 1 else 0
  {
    if s.stack.Push? && s.stack.top.Waiting? {
      assert OpenWith(s.stack, id) == OpenWith(s.stack.below, id);
    }
  }

  lemma {:induction false} WiresCount(wires: seq<Wire>, e: Event, id: Id)
    ensures AnswersWith(wires + WireOf(e), id) == AnswersWith(wires, id) + if e.Answered? && e.id == id then 1 else 0
  {
    var more := wires + WireOf(e);
    if WireOf(e) == [] {
      assert more == wires;
    } else {
      assert more[|more| - 1] == WireOf(e)[0] && more[..|more| - 1] == wires;
    }
  }

  /**
    On the wire: once nothing is being served, each id has been answered as often as a
    request that needs an answer came in with it.
  */
  lemma {:induction false} WireAnswersRequests(env: Env, log: seq<Event>, id: Id)
    requires Run(env, log).Some?
    ensures AnswersWith(Wires(log), id) + OpenWith(Run(env, log).value.stack, id) == RequestsWith(Requests(log), id)
  {
    if log != [] {
      var init, e := log[..|log| - 1], log[|log| - 1];
      WireAnswersRequests(env, init, id);
      StepCounts(env, Run(env, init).value, e, id);
      WiresCount(Wires(init), e, id);
      if e.Opened? {
        assert Requests(log)[..|Requests(log)| - 1] == Requests(init);
      } else {
        assert Requests(log) == Requests(init);
      }
    }
  }

  // ---- When the main loop stops ----

  /** The lines the main loop itself has read: those read while nothing is being served. */
  function TopLines(env: Env, log: seq<Event>): seq<string>
  {
    if log == [] then []
    else
      var n := |log| - 1;
      TopLines(env, log[..n]) + TopLine(Run(env, log[..n]), log[n])
  }

  function TopLine(s: Option<Machine>, e: Event): seq<string>
  {
    if s.Some? && s.value.stack.Idle? then LineOf(e) else []
  }

  /** A line that ends the main loop if that is who reads it. */
  predicate StopsLoop(env: Env, line: string)
  {
    match env.decode(line)
    case Null => true
    case Raises => true
    case Json(m) => Faulty(m)
    case _ => false
  }

  predicate AnyStops(env: Env, lines: seq<string>)
  {
    exists i :: 0 <= i < |lines| && StopsLoop(env, lines[i])
  }

  lemma {:induction false} AnyStopsSnoc(env: Env, lines: seq<string>, line: string)
    ensures AnyStops(env, lines + [line]) <==> AnyStops(env, lines) || StopsLoop(env, line)
  {
    var more := lines + [line];
    if AnyStops(env, lines) {
      var i :| 0 <= i < |lines| && StopsLoop(env, lines[i]);
      assert StopsLoop(env, more[i]);
    }
    assert more[|lines|] == line;
  }

  /** The message the main loop is serving. */
  function Outermost(stack: Stack): Message
    requires stack.Push?
  {
    if stack.below.Push? then Outermost(stack.below)
    else if stack.top.Serving? then stack.top.m else NotObject
  }

  /** While a message is being served it is the last thing the loop read, and nothing before it stopped the loop. */
  ghost predicate StopsKnown(env: Env, s: Machine, top: seq<string>)
  {
    if !s.stack.Push? then
      (AnyStops(env, top) <==> s.stack.Over? || s.raising) && (top != [] ==> !AnyStops(env, top[..|top| - 1]))
    else top != [] && !AnyStops(env, top[..|top| - 1]) && env.decode(top[|top| - 1]) == Json(Outermost(s.stack))
  }

  lemma {:induction false} StepOutermost(env: Env, s: Machine, e: Event)
    requires Enabled(env, s, e) && s.stack.Push?
    ensures After(env, s, e).stack.Push? ==> Outermost(After(env, s, e).stack) == Outermost(s.stack)
  {
    var t := After(env, s, e).stack;
    if e.Asked? {
      assert Outermost(t) == Outermost(t.below) == Outermost(s.stack);
    } else if s.stack.top.Waiting? && s.stack.below.Push? {
      assert Outermost(s.stack) == Outermost(s.stack.below);
    }
  }

  lemma {:induction false} StepStops(env: Env, s: Machine, e: Event, top: seq<string>, requests: seq<Message>)
    requires WellFormed(s) && Enabled(env, s, e) && FramesMatch(s.stack, requests) && StopsKnown(env, s, top)
    ensures StopsKnown(env, After(env, s, e), top + TopLine(Some(s), e))
  {
    if s.stack.Idle? && LineOf(e) != [] {
      AnyStopsSnoc(env, top, e.line);
      assert (top + [e.line])[..|top|] == top;
    } else {
      assert top + TopLine(Some(s), e) == top;
      if s.stack.Push? {
        StepOutermost(env, s, e);
      }
      if s.stack.Push? && !After(env, s, e).stack.Push? {
        AnyStopsSnoc(env, top[..|top| - 1], top[|top| - 1]);
        assert top == top[..|top| - 1] + [top[|top| - 1]];
      }
    }
  }

  lemma {:induction false} StopsTracked(env: Env, log: seq<Event>)
    requires Run(env, log).Some?
    ensures StopsKnown(env, Run(env, log).value, TopLines(env, log))
  {
    if log != [] {
      var init := log[..|log| - 1];
      StopsTracked(env, init);
      RunWellFormed(env, init);
      AnswersCounted(env, init, 0);
      StepStops(env, Run(env, init).value, log[|log| - 1], TopLines(env, init), Requests(init));
    }
  }

  /** All of it for a whole run, which leaves nothing open. */
  lemma {:induction false} WholeRun(env: Env, log: seq<Event>)
    requires Run(env, log).Some? && !Run(env, log).value.stack.Push?
    ensures forall id :: AnswersWith(Wires(log), id) == RequestsWith(Requests(log), id)
    ensures forall k :: 0 <= k < |Requests(log)| ==> AnswersTo(log, k) == if NeedsAnswer(Requests(log)[k]) then 1 else 0
    ensures Run(env, log).value.stack.Over? || Run(env, log).value.raising <==> AnyStops(env, TopLines(env, log))
    ensures TopLines(env, log) != [] ==> !AnyStops(env, TopLines(env, log)[..|TopLines(env, log)| - 1])
  {
    forall id {
      WireAnswersRequests(env, log, id);
    }
    forall k | 0 <= k < |Requests(log)| {
      ExactlyOneAnswer(env, log, k);
    }
    StopsTracked(env, log);
  }
}
