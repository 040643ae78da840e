/** The chat loop of the MCP chat client: how the conversation history
    grows per line the user enters. The model client, its streams, the MCP
    tool server and the console are the environment: each turn is handed
    the updates the model streams back (and whether the stream completes or
    throws part-way), the replies the tool server gives, and the second
    stream that follows the tool calls. What the session sends to the model
    (the history at each request) and to the tool server (each call's name
    and arguments) is recorded, so that "before the model is called" and
    "in call order" can be stated. */
module ChatMcp {
  import opened Common

  datatype Role = User | Assistant | Tool

  /** A call's arguments (argument values are kept as their JSON text). */
  type Arguments = map<string, string>

  datatype FunctionCall = FunctionCall(callId: string, name: string, arguments: Option<Arguments>)

  datatype Content =
    | TextContent(text: string)
    | FunctionCallContent(call: FunctionCall)
    | FunctionResultContent(callId: string, result: string)

  datatype Message = Message(role: Role, contents: seq<Content>)

  /** One streamed response update. */
  datatype Update = Update(contents: seq<Content>)

  /** A streamed response: the updates it yields, and whether it then ends
      normally (`completes`) or throws. */
  datatype Stream = Stream(updates: seq<Update>, completes: bool)

  /** What the tool server does with one call. */
  datatype ToolReply = Returned(result: string) | Threw

  datatype Invocation = Invocation(name: string, arguments: Arguments)

  /** Everything outside the session that one turn depends on. */
  datatype Environment = Environment(first: Stream, callTool: (string, Arguments) -> ToolReply, second: Stream)

  /** The history, the histories sent to the model (one per request), the
      tool invocations, and how many errors were caught and reported. */
  datatype Session = Session(
    history: seq<Message>,
    requests: seq<seq<Message>>,
    invocations: seq<Invocation>,
    errors: nat)

  // ---------------------------------------------------------------------
  // Input

  /** `char.IsWhiteSpace`: the Unicode separator characters and the
      control characters U+0009 to U+000D, U+0085. */
  predicate IsWhiteSpace(c: char)
  {
    || ('\U{0009}' <= c <= '\U{000D}') || c == ' ' || c == '\U{0085}' || c == '\U{00A0}'
    || c == '\U{1680}' || ('\U{2000}' <= c <= '\U{200A}') || c == '\U{2028}' || c == '\U{2029}'
    || c == '\U{202F}' || c == '\U{205F}' || c == '\U{3000}'
  }

  /** `string.IsNullOrWhiteSpace` of a line the console returned; `None` is
      the null it returns once input is exhausted. */
  predicate IsBlank(input: Option<string>)
  {
    input.None? || forall i :: 0 <= i < |input.value| ==> IsWhiteSpace(input.value[i])
  }

  // ---------------------------------------------------------------------
  // Reading a stream

  /** The text of a list of contents: its text contents, concatenated. */
  function TextOf(contents: seq<Content>): string
    decreases |contents|
  {
    if contents == [] then ""
    else
      var last := contents[|contents| - 1];
      TextOf(contents[..|contents| - 1]) + (if last.TextContent? then last.text else "")
  }

  /** What the builder holds after a stream: the texts of its updates. */
  function StreamText(updates: seq<Update>): string
    decreases |updates|
  {
    if updates == [] then "" else StreamText(updates[..|updates| - 1]) + TextOf(updates[|updates| - 1].contents)
  }

  /** The function calls among a list of contents, in order. */
  function CallsIn(contents: seq<Content>): seq<FunctionCall>
    decreases |contents|
  {
    if contents == [] then []
    else
      var last := contents[|contents| - 1];
      CallsIn(contents[..|contents| - 1]) + (if last.FunctionCallContent? then [last.call] else [])
  }

  /** `SelectMany(u => u.Contents).OfType<FunctionCallContent>()`. */
  function CallsOf(updates: seq<Update>): seq<FunctionCall>
    decreases |updates|
  {
    if updates == [] then [] else CallsOf(updates[..|updates| - 1]) + CallsIn(updates[|updates| - 1].contents)
  }

  // ---------------------------------------------------------------------
  // One turn

  /** The arguments a call is invoked with: its own, or an empty map. */
  function ArgumentsOf(call: FunctionCall): (args: Arguments)
    ensures call.arguments.None? ==> args == map[]
    ensures call.arguments.Some? ==> args == call.arguments.value
  {
    match call.arguments
    case Some(a) => a
    case None => map[]
  }

  function InvocationOf(call: FunctionCall): Invocation
  {
    Invocation(call.name, ArgumentsOf(call))
  }

  function TextMessage(role: Role, text: string): Message
  {
    Message(role, [TextContent(text)])
  }

  /** The tool message answering one call. */
  function ToolMessage(call: FunctionCall, result: string): Message
  {
    Message(Tool, [FunctionResultContent(call.callId, result)])
  }

  function CallContents(calls: seq<FunctionCall>): seq<Content>
  {
    seq(|calls|, i requires 0 <= i < |calls| => FunctionCallContent(calls[i]))
  }

  /** The assistant message of a turn with calls: its text, if any, then
      every call. */
  function AssistantContents(text: string, calls: seq<FunctionCall>): seq<Content>
  {
    (if |text| > 0 then [TextContent(text)] else []) + CallContents(calls)
  }

  /** The tool loop: one invocation and one tool message per call, in
      order, stopping at the first call the server throws on. The flag says
      whether every call returned. */
  function ToolLoop(s: Session, calls: seq<FunctionCall>, callTool: (string, Arguments) -> ToolReply): (Session, bool)
    decreases |calls|
  {
    if calls == [] then (s, true)
    else
      var (p, ok) := ToolLoop(s, calls[..|calls| - 1], callTool);
      if !ok then (p, false)
      else
        var call := calls[|calls| - 1];
        var p1 := p.(invocations := p.invocations + [InvocationOf(call)]);
        match callTool(call.name, ArgumentsOf(call))
        case Threw => (p1, false)
        case Returned(result) => (p1.(history := p1.history + [ToolMessage(call, result)]), true)
  }

  /** The body of the chat loop for a non-blank line. */
  function Turn(s: Session, input: string, env: Environment): Session
  {
    var asked := s.history + [TextMessage(User, input)];
    var s1 := s.(history := asked, requests := s.requests + [asked]);
    if !env.first.completes then s1.(errors := s1.errors + 1)
    else
      var text := StreamText(env.first.updates);
      var calls := CallsOf(env.first.updates);
      if |calls| == 0 then
        if |text| > 0 then s1.(history := s1.history + [TextMessage(Assistant, text)]) else s1
      else
        var (p, ok) := ToolLoop(CallsAnnounced(s, input, env), calls, env.callTool);
        Conclude(p, ok, env.second)
  }

  /** The session right after the assistant message of a turn with calls. */
  function CallsAnnounced(s: Session, input: string, env: Environment): Session
  {
    var asked := s.history + [TextMessage(User, input)];
    var calls := CallsOf(env.first.updates);
    s.(history := asked + [Message(Assistant, AssistantContents(StreamText(env.first.updates), calls))],
       requests := s.requests + [asked])
  }

  /** The end of a turn with calls: an error if a call threw; otherwise the
      model is asked again and its non-empty answer appended. */
  function Conclude(p: Session, ok: bool, second: Stream): Session
  {
    if !ok then p.(errors := p.errors + 1)
    else
      var p1 := p.(requests := p.requests + [p.history]);
      if !second.completes then p1.(errors := p1.errors + 1)
      else
        var answer := StreamText(second.updates);
        if |answer| > 0 then p1.(history := p1.history + [TextMessage(Assistant, answer)]) else p1
  }

  /** The chat loop over the lines entered, until the first blank one (or
      the end of input); the i-th non-blank line meets environment i. */
  function Run(s: Session, inputs: seq<string>, envs: seq<Environment>): Session
    requires |envs| >= |inputs|
    decreases |inputs|
  {
    if inputs == [] || IsBlank(Some(inputs[0])) then s
    else Run(Turn(s, inputs[0], envs[0]), inputs[1..], envs[1..])
  }

  // ---------------------------------------------------------------------
  // The session as the service runs it

  /** Reads a stream to its end into a fresh builder, appending each
      update's non-empty text; also returns the updates it collected. */
  method ReadStream(stream: Stream) returns (text: string, updates: seq<Update>)
    ensures text == StreamText(stream.updates)
    ensures updates == stream.updates
  {
    text := "";
    updates := [];
    var i := 0;
    while i < |stream.updates|
      invariant 0 <= i <= |stream.updates|
      invariant updates == stream.updates[..i]
      invariant text == StreamText(stream.updates[..i])
    {
      var item := stream.updates[i];
      updates := updates + [item];
      var piece := TextOf(item.contents);
      if |piece| > 0 {
        text := text + piece;
      }
      assert stream.updates[..i + 1][..i] == stream.updates[..i];
      i := i + 1;
    }
    assert stream.updates[..i] == stream.updates;
  }

  /** Collects the function calls of every update's contents, in order. */
  method CollectCalls(updates: seq<Update>) returns (calls: seq<FunctionCall>)
    ensures calls == CallsOf(updates)
  {
    calls := [];
    var i := 0;
    while i < |updates|
      invariant 0 <= i <= |updates|
      invariant calls == CallsOf(updates[..i])
    {
      var contents := updates[i].contents;
      var j := 0;
      while j < |contents|
        invariant 0 <= j <= |contents|
        invariant calls == CallsOf(updates[..i]) + CallsIn(contents[..j])
      {
        if contents[j].FunctionCallContent? {
          calls := calls + [contents[j].call];
        }
        assert contents[..j + 1][..j] == contents[..j];
        j := j + 1;
      }
      assert contents[..j] == contents;
      assert updates[..i + 1][..i] == updates[..i];
      i := i + 1;
    }
    assert updates[..i] == updates;
  }

  class ChatSession {
    var history: seq<Message>
    var requests: seq<seq<Message>>
    var invocations: seq<Invocation>
    var errors: nat

    function State(): Session
      reads this
    {
      Session(history, requests, invocations, errors)
    }

    constructor ()
      ensures State() == Session([], [], [], 0)
    {
      history := [];
      requests := [];
      invocations := [];
      errors := 0;
    }

    /** The `foreach` over the calls; `false` when the server threw. */
    method CallTools(calls: seq<FunctionCall>, callTool: (string, Arguments) -> ToolReply) returns (ok: bool)
      modifies this
      ensures (State(), ok) == ToolLoop(old(State()), calls, callTool)
    {
      var i := 0;
      while i < |calls|
        invariant 0 <= i <= |calls|
        invariant (State(), true) == ToolLoop(old(State()), calls[..i], callTool)
      {
        var call := calls[i];
        var args := ArgumentsOf(call);
        invocations := invocations + [Invocation(call.name, args)];
        var reply := callTool(call.name, args);
        assert calls[..i + 1][..i] == calls[..i];
        if reply.Threw? {
          ToolLoopStops(old(State()), calls, callTool, i);
          return false;
        }
        history := history + [ToolMessage(call, reply.result)];
        i := i + 1;
      }
      assert calls[..i] == calls;
      return true;
    }

    /** One pass of the chat loop for a non-blank line. */
    method HandleLine(input: string, env: Environment)
      modifies this
      ensures State() == Turn(old(State()), input, env)
    {
      history := history + [TextMessage(User, input)];
      requests := requests + [history];
      var text, updates := ReadStream(env.first);
      if !env.first.completes {
        errors := errors + 1;
        return;
      }
      var calls := CollectCalls(updates);
      if |calls| != 0 {
        var contents: seq<Content> := [];
        if |text| > 0 {
          contents := contents + [TextContent(text)];
        }
        contents := contents + CallContents(calls);
        assert contents == AssistantContents(text, calls);
        history := history + [Message(Assistant, contents)];
        ghost var before := State();
        var ok := CallTools(calls, env.callTool);
        assert (State(), ok) == ToolLoop(before, calls, env.callTool);
        if !ok {
          errors := errors + 1;
          return;
        }
        requests := requests + [history];
        var answer, _ := ReadStream(env.second);
        if !env.second.completes {
          errors := errors + 1;
          return;
        }
        if |answer| > 0 {
          history := history + [TextMessage(Assistant, answer)];
        }
      } else if |text| > 0 {
        history := history + [TextMessage(Assistant, text)];
      }
    }

    /** The chat loop: reads lines until a blank one or the end of input. */
    method Execute(inputs: seq<string>, envs: seq<Environment>)
      requires |envs| >= |inputs|
      modifies this
      ensures State() == Run(old(State()), inputs, envs)
    {
      var i := 0;
      while i < |inputs|
        invariant 0 <= i <= |inputs|
        invariant Run(State(), inputs[i..], envs[i..]) == Run(old(State()), inputs, envs)
      {
        if IsBlank(Some(inputs[i])) {
          break;
        }
        HandleLine(inputs[i], envs[i]);
        assert inputs[i..][1..] == inputs[i + 1..];
        assert envs[i..][1..] == envs[i + 1..];
        i := i + 1;
      }
    }
  }

  // ---------------------------------------------------------------------
  // Properties

  /** Once the server throws on a call, the calls after it are not made. */
  lemma {:induction false} ToolLoopStops(s: Session, calls: seq<FunctionCall>, callTool: (string, Arguments) -> ToolReply, k: nat)
    requires k < |calls|
    requires !ToolLoop(s, calls[..k + 1], callTool).1
    ensures ToolLoop(s, calls, callTool) == ToolLoop(s, calls[..k + 1], callTool)
    decreases |calls|
  {
    if |calls| > k + 1 {
      var init := calls[..|calls| - 1];
      assert init[..k + 1] == calls[..k + 1];
      ToolLoopStops(s, init, callTool, k);
    } else {
      assert calls[..k + 1] == calls;
    }
  }

  /** Every call the loop reaches returns up to the k-th: one invocation
      and one tool message per call, in call order, each answering that
      call's id. */
  lemma {:induction false} ToolLoopReturned(s: Session, calls: seq<FunctionCall>, callTool: (string, Arguments) -> ToolReply, k: nat)
    requires k <= |calls|
    requires forall i :: 0 <= i < k ==> callTool(calls[i].name, ArgumentsOf(calls[i])).Returned?
    ensures var (p, ok) := ToolLoop(s, calls[..k], callTool);
      && ok && p.requests == s.requests && p.errors == s.errors
      && |p.history| == |s.history| + k && p.history[..|s.history|] == s.history
      && |p.invocations| == |s.invocations| + k && p.invocations[..|s.invocations|] == s.invocations
      && (forall i :: 0 <= i < k ==>
            p.history[|s.history| + i] == ToolMessage(calls[i], callTool(calls[i].name, ArgumentsOf(calls[i])).result))
      && (forall i :: 0 <= i < k ==> p.invocations[|s.invocations| + i] == InvocationOf(calls[i]))
    decreases k
  {
    if k > 0 {
      ToolLoopReturned(s, calls, callTool, k - 1);
      assert calls[..k][..k - 1] == calls[..k - 1];
    }
  }

  /** Once the calls before the k-th have returned, call k is invoked, as
      the k-th invocation of the loop. */
  lemma {:induction false} ToolLoopInvokes(s: Session, calls: seq<FunctionCall>, callTool: (string, Arguments) -> ToolReply, k: nat)
    requires k < |calls|
    requires forall i :: 0 <= i < k ==> callTool(calls[i].name, ArgumentsOf(calls[i])).Returned?
    ensures var (p, _) := ToolLoop(s, calls, callTool);
      |s.invocations| + k < |p.invocations| && p.invocations[|s.invocations| + k] == InvocationOf(calls[k])
  {
    ToolLoopReturned(s, calls, callTool, k);
    assert calls[..k + 1][..k] == calls[..k];
    ToolLoopExtends(s, calls, callTool, k + 1);
  }

  /** The tool loop only appends: requests and errors are untouched, the
      history and the invocations are extended, and running the loop over
      a prefix of the calls yields a prefix of each. */
  lemma {:induction false} ToolLoopExtends(s: Session, calls: seq<FunctionCall>, callTool: (string, Arguments) -> ToolReply, j: nat)
    requires j <= |calls|
    ensures var (q, _) := ToolLoop(s, calls[..j], callTool);
      var (p, _) := ToolLoop(s, calls, callTool);
      && p.requests == s.requests && p.errors == s.errors
      && |s.history| <= |q.history| <= |p.history| && p.history[..|q.history|] == q.history
      && q.history[..|s.history|] == s.history
      && |q.invocations| <= |p.invocations| && p.invocations[..|q.invocations|] == q.invocations
    decreases |calls|
  {
    if j == |calls| {
      assert calls[..j] == calls;
      if j > 0 {
        ToolLoopExtends(s, calls[..j - 1], callTool, j - 1);
        assert calls[..j - 1][..j - 1] == calls[..j - 1];
      }
    } else {
      var init := calls[..|calls| - 1];
      ToolLoopExtends(s, init, callTool, j);
      assert init[..j] == calls[..j];
    }
  }

  /** `b` extends `a` (a prefix, possibly all of it). */
  ghost predicate Extends<T>(b: seq<T>, a: seq<T>)
  {
    |a| <= |b| && b[..|a|] == a
  }

  lemma {:induction false} ExtendsTransitive<T>(a: seq<T>, b: seq<T>, c: seq<T>)
    requires Extends(b, a) && Extends(c, b)
    ensures Extends(c, a)
  {
    assert c[..|a|] == c[..|b|][..|a|];
  }

  /** The tool loop leaves requests and errors alone and only appends to
      the history and the invocations. */
  lemma {:induction false} ToolLoopGrows(s: Session, calls: seq<FunctionCall>, callTool: (string, Arguments) -> ToolReply)
    ensures var p := ToolLoop(s, calls, callTool).0;
      && p.requests == s.requests && p.errors == s.errors
      && Extends(p.history, s.history) && Extends(p.invocations, s.invocations)
    decreases |calls|
  {
    if calls != [] {
      var p := ToolLoop(s, calls[..|calls| - 1], callTool).0;
      ToolLoopGrows(s, calls[..|calls| - 1], callTool);
      var r := ToolLoop(s, calls, callTool).0;
      assert Extends(r.history, p.history) && Extends(r.invocations, p.invocations);
      ExtendsTransitive(s.history, p.history, r.history);
      ExtendsTransitive(s.invocations, p.invocations, r.invocations);
    }
  }

  /** The end of a turn with calls only appends, asks the model at most
      once more and reports at most one error. */
  lemma {:induction false} ConcludeGrows(p: Session, ok: bool, second: Stream)
    ensures var r := Conclude(p, ok, second);
      && Extends(r.history, p.history) && Extends(r.requests, p.requests)
      && r.invocations == p.invocations && p.errors <= r.errors <= p.errors + 1
  {
  }

  /** A turn with calls: announce them, run the tool loop, conclude. */
  lemma {:induction false} TurnWithCalls(s: Session, input: string, env: Environment)
    requires env.first.completes && CallsOf(env.first.updates) != []
    ensures var (p, ok) := ToolLoop(CallsAnnounced(s, input, env), CallsOf(env.first.updates), env.callTool);
      Turn(s, input, env) == Conclude(p, ok, env.second)
  {
  }

  /** A non-blank line is appended as one user turn before the model is
      called (the first request carries it), and the turn never removes
      anything: whatever fails later, that user turn stays. */
  lemma {:induction false} UserTurnFirst(s: Session, input: string, env: Environment)
    ensures var r := Turn(s, input, env);
      var asked := s.history + [TextMessage(User, input)];
      && |asked| <= |r.history| && r.history[..|asked|] == asked
      && |s.requests| < |r.requests| && r.requests[..|s.requests| + 1] == s.requests + [asked]
      && |s.invocations| <= |r.invocations| && r.invocations[..|s.invocations|] == s.invocations
      && s.errors <= r.errors <= s.errors + 1
  {
    var calls := CallsOf(env.first.updates);
    var asked := s.history + [TextMessage(User, input)];
    if env.first.completes && |calls| != 0 {
      var s3 := CallsAnnounced(s, input, env);
      var (p, ok) := ToolLoop(s3, calls, env.callTool);
      TurnWithCalls(s, input, env);
      ToolLoopGrows(s3, calls, env.callTool);
      ConcludeGrows(p, ok, env.second);
      var r := Conclude(p, ok, env.second);
      assert Extends(s3.history, asked);
      ExtendsTransitive(asked, s3.history, p.history);
      ExtendsTransitive(asked, p.history, r.history);
      ExtendsTransitive(s.requests + [asked], p.requests, r.requests);
    }
  }

  /** With no function calls in the stream, the turn adds at most one
      assistant message, holding the streamed text, and only when that
      text is non-empty; no tool is called and the model is asked once. */
  lemma {:induction false} NoCallsTurn(s: Session, input: string, env: Environment)
    requires env.first.completes && CallsOf(env.first.updates) == []
    ensures var r := Turn(s, input, env);
      var text := StreamText(env.first.updates);
      && |r.history| == |s.history| + 1 + (if |text| > 0 then 1 else 0)
      && (|text| > 0 ==> r.history[|s.history| + 1] == TextMessage(Assistant, text))
      && |r.requests| == |s.requests| + 1
      && r.invocations == s.invocations && r.errors == s.errors
  {
  }

  /** With function calls, the message after the user turn is the
      assistant's: the streamed text first when it is non-empty, then every
      call in stream order. */
  lemma {:induction false} CallsTurnAssistant(s: Session, input: string, env: Environment)
    requires env.first.completes && CallsOf(env.first.updates) != []
    ensures var r := Turn(s, input, env);
      var text := StreamText(env.first.updates);
      var calls := CallsOf(env.first.updates);
      var offset := if |text| > 0 then 1 else 0;
      && |s.history| + 2 <= |r.history|
      && r.history[|s.history|].role == User
      && r.history[|s.history| + 1].role == Assistant
      && |r.history[|s.history| + 1].contents| == offset + |calls|
      && (|text| > 0 ==> r.history[|s.history| + 1].contents[0] == TextContent(text))
      && (forall i :: 0 <= i < |calls| ==> r.history[|s.history| + 1].contents[offset + i] == FunctionCallContent(calls[i]))
  {
    var calls := CallsOf(env.first.updates);
    var m := Message(Assistant, AssistantContents(StreamText(env.first.updates), calls));
    var s3 := CallsAnnounced(s, input, env);
    var (p, ok) := ToolLoop(s3, calls, env.callTool);
    TurnWithCalls(s, input, env);
    ToolLoopGrows(s3, calls, env.callTool);
    ConcludeGrows(p, ok, env.second);
    var r := Conclude(p, ok, env.second);
    ExtendsTransitive(s3.history, p.history, r.history);
    assert r.history[|s.history|] == s3.history[|s.history|];
    assert r.history[|s.history| + 1] == s3.history[|s.history| + 1] == m;
  }

  /** The result the server returned for a call. */
  function ResultOf(call: FunctionCall, callTool: (string, Arguments) -> ToolReply): string
    requires callTool(call.name, ArgumentsOf(call)).Returned?
  {
    callTool(call.name, ArgumentsOf(call)).result
  }

  /** When every call returns: exactly one tool message per call follows
      the assistant message, in call order, each carrying its call's id;
      and the second request to the model carries every tool message. */
  lemma {:induction false} ToolTurns(s: Session, input: string, env: Environment)
    requires env.first.completes && CallsOf(env.first.updates) != []
    requires forall c :: c in CallsOf(env.first.updates) ==> env.callTool(c.name, ArgumentsOf(c)).Returned?
    ensures var r := Turn(s, input, env);
      var calls := CallsOf(env.first.updates);
      && |s.history| + 2 + |calls| <= |r.history|
      && (forall i :: 0 <= i < |calls| ==>
            && r.history[|s.history| + 2 + i] == ToolMessage(calls[i], ResultOf(calls[i], env.callTool))
            && r.history[|s.history| + 2 + i].contents[0].callId == calls[i].callId)
      && |r.requests| == |s.requests| + 2
      && r.requests[|s.requests| + 1] == r.history[..|s.history| + 2 + |calls|]
  {
    var calls := CallsOf(env.first.updates);
    var s3 := CallsAnnounced(s, input, env);
    ToolLoopReturned(s3, calls, env.callTool, |calls|);
    assert calls[..|calls|] == calls;
    var p := ToolLoop(s3, calls, env.callTool).0;
    TurnWithCalls(s, input, env);
    ConcludeGrows(p, true, env.second);
    var r := Conclude(p, true, env.second);
    assert r.requests == p.requests + [p.history];
    assert |p.history| == |s.history| + 2 + |calls|;
    assert r.history[..|p.history|] == p.history;
    forall i | 0 <= i < |calls|
      ensures r.history[|s.history| + 2 + i] == ToolMessage(calls[i], ResultOf(calls[i], env.callTool))
    {
      assert r.history[|s.history| + 2 + i] == p.history[|s.history| + 2 + i];
    }
  }

  /** When every call returns, each call is invoked once, in call order,
      with its own arguments. */
  lemma {:induction false} ToolInvocations(s: Session, input: string, env: Environment)
    requires env.first.completes && CallsOf(env.first.updates) != []
    requires forall c :: c in CallsOf(env.first.updates) ==> env.callTool(c.name, ArgumentsOf(c)).Returned?
    ensures var r := Turn(s, input, env);
      var calls := CallsOf(env.first.updates);
      && |r.invocations| == |s.invocations| + |calls|
      && (forall i :: 0 <= i < |calls| ==> r.invocations[|s.invocations| + i] == InvocationOf(calls[i]))
  {
    var calls := CallsOf(env.first.updates);
    var s3 := CallsAnnounced(s, input, env);
    ToolLoopReturned(s3, calls, env.callTool, |calls|);
    assert calls[..|calls|] == calls;
    TurnWithCalls(s, input, env);
    ConcludeGrows(ToolLoop(s3, calls, env.callTool).0, true, env.second);
  }

  /** When every call returns, a final assistant message follows the tool
      messages only if the second stream's text is non-empty; if that
      stream throws, the turn ends after the tool messages. */
  lemma {:induction false} FinalAnswer(s: Session, input: string, env: Environment)
    requires env.first.completes && CallsOf(env.first.updates) != []
    requires forall c :: c in CallsOf(env.first.updates) ==> env.callTool(c.name, ArgumentsOf(c)).Returned?
    ensures var r := Turn(s, input, env);
      var calls := CallsOf(env.first.updates);
      var answer := StreamText(env.second.updates);
      && (env.second.completes ==>
            && |r.history| == |s.history| + 2 + |calls| + (if |answer| > 0 then 1 else 0)
            && (|answer| > 0 ==> r.history[|r.history| - 1] == TextMessage(Assistant, answer))
            && r.errors == s.errors)
      && (!env.second.completes ==> |r.history| == |s.history| + 2 + |calls| && r.errors == s.errors + 1)
  {
    var calls := CallsOf(env.first.updates);
    ToolLoopReturned(CallsAnnounced(s, input, env), calls, env.callTool, |calls|);
    assert calls[..|calls|] == calls;
    TurnWithCalls(s, input, env);
  }

  /** When the server throws on call k, the calls before it have their tool
      messages, call k was invoked, nothing after it happens, the model is
      not asked again, and the error is reported. */
  lemma {:induction false} ToolThrows(s: Session, input: string, env: Environment, k: nat)
    requires env.first.completes && k < |CallsOf(env.first.updates)|
    requires forall i :: 0 <= i < k ==> env.callTool(CallsOf(env.first.updates)[i].name, ArgumentsOf(CallsOf(env.first.updates)[i])).Returned?
    requires env.callTool(CallsOf(env.first.updates)[k].name, ArgumentsOf(CallsOf(env.first.updates)[k])).Threw?
    ensures var r := Turn(s, input, env);
      var calls := CallsOf(env.first.updates);
      && |r.history| == |s.history| + 2 + k
      && (forall i :: 0 <= i < k ==> r.history[|s.history| + 2 + i] == ToolMessage(calls[i], ResultOf(calls[i], env.callTool)))
      && |r.invocations| == |s.invocations| + k + 1
      && r.invocations[|s.invocations| + k] == InvocationOf(calls[k])
      && |r.requests| == |s.requests| + 1
      && r.errors == s.errors + 1
  {
    var calls := CallsOf(env.first.updates);
    var s3 := CallsAnnounced(s, input, env);
    ToolLoopReturned(s3, calls, env.callTool, k);
    assert calls[..k + 1][..k] == calls[..k];
    ToolLoopStops(s3, calls, env.callTool, k);
    TurnWithCalls(s, input, env);
  }

  /** A call that carries no arguments is invoked with the empty map. */
  lemma {:induction false} CallWithoutArguments(s: Session, input: string, env: Environment, k: nat)
    requires env.first.completes && k < |CallsOf(env.first.updates)|
    requires forall i :: 0 <= i < k ==> env.callTool(CallsOf(env.first.updates)[i].name, ArgumentsOf(CallsOf(env.first.updates)[i])).Returned?
    requires CallsOf(env.first.updates)[k].arguments.None?
    ensures var r := Turn(s, input, env);
      && |s.invocations| + k < |r.invocations|
      && r.invocations[|s.invocations| + k] == Invocation(CallsOf(env.first.updates)[k].name, map[])
  {
    ToolLoopInvokes(CallsAnnounced(s, input, env), CallsOf(env.first.updates), env.callTool, k);
    TurnWithCalls(s, input, env);
  }

  /** When the first stream throws, only the user turn remains of the turn
      and the error is reported. */
  lemma {:induction false} FirstStreamThrows(s: Session, input: string, env: Environment)
    requires !env.first.completes
    ensures var r := Turn(s, input, env);
      && r.history == s.history + [TextMessage(User, input)]
      && r.invocations == s.invocations
      && r.errors == s.errors + 1
  {
  }

  /** The number of lines read before the first blank one. */
  function LeadingLines(inputs: seq<string>): (n: nat)
    ensures n <= |inputs|
  {
    if inputs == [] || IsBlank(Some(inputs[0])) then 0 else 1 + LeadingLines(inputs[1..])
  }

  /** The loop ends at the first blank line: the lines after it are never
      read, and a blank first line leaves the session exactly as it was,
      with no request to the model. */
  lemma {:induction false} RunStopsAtBlank(s: Session, inputs: seq<string>, envs: seq<Environment>, k: nat)
    requires |envs| >= |inputs| && k < |inputs|
    requires IsBlank(Some(inputs[k]))
    requires forall i :: 0 <= i < k ==> !IsBlank(Some(inputs[i]))
    ensures Run(s, inputs, envs) == Run(s, inputs[..k], envs[..k])
    ensures k == 0 ==> Run(s, inputs, envs) == s
    decreases k
  {
    if k > 0 {
      assert inputs[..k][0] == inputs[0];
      assert inputs[..k][1..] == inputs[1..][..k - 1];
      assert envs[..k][1..] == envs[1..][..k - 1];
      RunStopsAtBlank(Turn(s, inputs[0], envs[0]), inputs[1..], envs[1..], k - 1);
    }
  }

  /** A caught error does not end the loop, and nothing appended is ever
      removed: every line before the first blank one adds at least its
      user turn to the history and one request to the model. */
  lemma {:induction false} RunKeepsHistory(s: Session, inputs: seq<string>, envs: seq<Environment>)
    requires |envs| >= |inputs|
    ensures var r := Run(s, inputs, envs);
      && |s.history| + LeadingLines(inputs) <= |r.history| && r.history[..|s.history|] == s.history
      && |s.requests| + LeadingLines(inputs) <= |r.requests| && r.requests[..|s.requests|] == s.requests
      && s.errors <= r.errors
    decreases |inputs|
  {
    if inputs != [] && !IsBlank(Some(inputs[0])) {
      var t := Turn(s, inputs[0], envs[0]);
      UserTurnFirst(s, inputs[0], envs[0]);
      RunKeepsHistory(t, inputs[1..], envs[1..]);
      var r := Run(t, inputs[1..], envs[1..]);
      assert r.history[..|s.history|] == r.history[..|t.history|][..|s.history|];
      assert t.history[..|s.history|] == t.history[..|s.history| + 1][..|s.history|];
      assert r.requests[..|s.requests|] == r.requests[..|t.requests|][..|s.requests|];
      assert t.requests[..|s.requests|] == t.requests[..|s.requests| + 1][..|s.requests|];
    }
  }

  // ---------------------------------------------------------------------
  // The stream, flattened

  /** `SelectMany(u => u.Contents)`: every update's contents, in order. */
  function Flatten(updates: seq<Update>): seq<Content>
    decreases |updates|
  {
    if updates == [] then [] else Flatten(updates[..|updates| - 1]) + updates[|updates| - 1].contents
  }

  lemma {:induction false} TextOfAppend(a: seq<Content>, b: seq<Content>)
    ensures TextOf(a + b) == TextOf(a) + TextOf(b)
    decreases |b|
  {
    if b != [] {
      TextOfAppend(a, b[..|b| - 1]);
      assert (a + b)[..|a + b| - 1] == a + b[..|b| - 1];
    } else {
      assert a + b == a;
    }
  }

  lemma {:induction false} CallsInAppend(a: seq<Content>, b: seq<Content>)
    ensures CallsIn(a + b) == CallsIn(a) + CallsIn(b)
    decreases |b|
  {
    if b != [] {
      CallsInAppend(a, b[..|b| - 1]);
      assert (a + b)[..|a + b| - 1] == a + b[..|b| - 1];
    } else {
      assert a + b == a;
    }
  }

  /** The builder's text is the text of all streamed contents together. */
  lemma {:induction false} StreamTextIsFlatText(updates: seq<Update>)
    ensures StreamText(updates) == TextOf(Flatten(updates))
    decreases |updates|
  {
    if updates != [] {
      StreamTextIsFlatText(updates[..|updates| - 1]);
      TextOfAppend(Flatten(updates[..|updates| - 1]), updates[|updates| - 1].contents);
    }
  }

  /** The calls of a stream are the calls among all its contents together. */
  lemma {:induction false} CallsOfIsFlatCalls(updates: seq<Update>)
    ensures CallsOf(updates) == CallsIn(Flatten(updates))
    decreases |updates|
  {
    if updates != [] {
      CallsOfIsFlatCalls(updates[..|updates| - 1]);
      CallsInAppend(Flatten(updates[..|updates| - 1]), updates[|updates| - 1].contents);
    }
  }

  /** `OfType<FunctionCallContent>()` keeps exactly the call contents. */
  lemma {:induction false} CallsInExactly(contents: seq<Content>)
    ensures forall c :: c in CallsIn(contents) <==> FunctionCallContent(c) in contents
    decreases |contents|
  {
    if contents != [] {
      var init := contents[..|contents| - 1];
      CallsInExactly(init);
      assert contents == init + [contents[|contents| - 1]];
    }
  }
}
