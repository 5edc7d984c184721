/** The RCA agent's ReAct loop: a bounded conversation with a language model that may answer
    anything, in which the calls of every tool-call response get their replies and every token,
    step and millisecond is accounted for. */
module ReActAgent {
  import opened Sequences
  import opened Wrappers

  /** A call's arguments, read as JSON. Unreadable also covers JSON that is neither a string nor
      an object. */
  datatype Arguments = Text(text: string) | Object(json: string) | Unreadable

  datatype ToolCall = ToolCall(id: string, name: string, arguments: Arguments)

  /** A final answer after fence stripping, JSON parsing and schema validation. */
  datatype Answer = Invalid | Valid(rootCause: string, confidence: real, recommendations: seq<string>)

  /** One chat completion. Stop covers the finish reasons stop and length, which may come with
      tool calls all the same. Raised is an exception of the client, or one over a response
      that lacks usage, choices or, with the finish reason tool_calls, the calls. */
  datatype Response =
    | ToolUse(content: string, calls: seq<ToolCall>, promptTokens: nat, completionTokens: nat)
    | Stop(content: string, calls: seq<ToolCall>, answer: Answer, promptTokens: nat, completionTokens: nat)
    | OtherReason(promptTokens: nat, completionTokens: nat)
    | Raised

  datatype Message =
    | System(text: string)
    | User(text: string)
    | Assistant(text: string, calls: seq<ToolCall>)
    | Tool(callId: string, text: string)

  datatype ReasoningStep = ReasoningStep(number: nat, thought: string, action: string, input: Arguments,
                                         observation: string)

  datatype RCAResult = RCAResult(rootCause: string, confidence: real, recommendations: seq<string>,
                                 steps: seq<ReasoningStep>, inputTokens: nat, outputTokens: nat,
                                 totalMs: int, llmMs: int, toolMs: int)

  datatype Outcome =
    | Success(result: RCAResult)
    | SchemaInvalid(raw: string)
    | LowConfidence(confidence: real, iterations: nat)
    | BadToolCall
    | ResultRejected
    | ClientError

  /** unknownTool is the text about a name that is not registered, and nudge that about a
      confidence and the threshold it missed; compressionRatio comes with the incident;
      isSpace is the whitespace that the step record strips. */
  datatype Config = Config(maxIterations: int, threshold: real, tools: set<string>, unknownTool: string -> string,
                           nudge: (real, real) -> string, opening: seq<Message>, compressionRatio: real,
                           isSpace: char -> bool)

  /** What the world answers: the response to request k, the result of the j-th tool call of
      response k, and the i-th reading of the monotonic clock, in seconds. */
  datatype World = World(response: int -> Response, toolResult: (int, int) -> Result<string, string>,
                         clock: int -> real)

  ghost predicate Monotonic(clock: int -> real) {
    forall i, j | 0 <= i <= j :: clock(i) <= clock(j)
  }

  // ----- What one response does -----

  function Budget(cfg: Config): nat {
    if cfg.maxIterations < 0 then 0 else cfg.maxIterations
  }

  /** Without leading and trailing whitespace. */
  function Strip(isSpace: char -> bool, s: string): string {
    if s == "" then ""
    else if isSpace(s[0]) then Strip(isSpace, s[1..])
    else if isSpace(s[|s| - 1]) then Strip(isSpace, s[..|s| - 1])
    else s
  }

  predicate Blank(isSpace: char -> bool, s: string) {
    forall i | 0 <= i < |s| :: isSpace(s[i])
  }

  lemma {:induction false} StripBlank(isSpace: char -> bool, s: string)
    ensures Strip(isSpace, s) == "" <==> Blank(isSpace, s)
    decreases |s|
  {
    if s != "" && isSpace(s[0]) {
      StripBlank(isSpace, s[1..]);
      assert forall i | 0 <= i < |s[1..]| :: s[1..][i] == s[i + 1];
      assert forall i | 0 < i < |s| :: s[i] == s[1..][i - 1];
    } else if s != "" {
      assert !isSpace(s[0]);
      if isSpace(s[|s| - 1]) {
        StripBlank(isSpace, s[..|s| - 1]);
        assert s[..|s| - 1][0] == s[0];
      }
    }
  }

  /** The arguments as recorded: a string is stripped, an object is left as it is. */
  function Recorded(cfg: Config, arguments: Arguments): Arguments {
    if arguments.Text? then Text(Strip(cfg.isSpace, arguments.text)) else arguments
  }

  /** What is left when blanks are taken off both ends. */
  ghost predicate Stripped(isSpace: char -> bool, s: string, t: string) {
    && (exists head: string, tail: string :: Trims(isSpace, s, head, t, tail))
    && (t != "" ==> !isSpace(t[0]) && !isSpace(t[|t| - 1]))
  }

  ghost predicate Trims(isSpace: char -> bool, s: string, head: string, t: string, tail: string) {
    s == head + t + tail && Blank(isSpace, head) && Blank(isSpace, tail)
  }

  lemma TrimFront(isSpace: char -> bool, s: string, head: string, t: string, tail: string)
    requires s != "" && isSpace(s[0]) && Trims(isSpace, s[1..], head, t, tail)
    ensures Trims(isSpace, s, [s[0]] + head, t, tail)
  {
    assert s == [s[0]] + s[1..];
  }

  lemma TrimBack(isSpace: char -> bool, s: string, head: string, t: string, tail: string)
    requires s != "" && isSpace(s[|s| - 1]) && Trims(isSpace, s[..|s| - 1], head, t, tail)
    ensures Trims(isSpace, s, head, t, tail + [s[|s| - 1]])
  {
    assert s == s[..|s| - 1] + [s[|s| - 1]];
  }

  lemma {:induction false} StripExactly(isSpace: char -> bool, s: string)
    ensures Stripped(isSpace, s, Strip(isSpace, s))
    decreases |s|
  {
    var t := Strip(isSpace, s);
    if s == "" || (!isSpace(s[0]) && !isSpace(s[|s| - 1])) {
      assert Trims(isSpace, s, "", t, "");
    } else if isSpace(s[0]) {
      StripExactly(isSpace, s[1..]);
      var head: string, tail: string :| Trims(isSpace, s[1..], head, t, tail);
      TrimFront(isSpace, s, head, t, tail);
    } else {
      var n := |s| - 1;
      StripExactly(isSpace, s[..n]);
      var head: string, tail: string :| Trims(isSpace, s[..n], head, t, tail);
      TrimBack(isSpace, s, head, t, tail);
    }
  }

  /** The step record of the call is accepted: it strips thought and action, and refuses
      either when nothing is left. */
  predicate Recordable(cfg: Config, content: string, c: ToolCall) {
    && !c.arguments.Unreadable?
    && Strip(cfg.isSpace, Thought(content, c.name)) != ""
    && Strip(cfg.isSpace, c.name) != ""
  }

  predicate Dispatchable(cfg: Config, content: string, calls: seq<ToolCall>) {
    forall c | c in calls :: Recordable(cfg, content, c)
  }

  /** Response k ends the run. */
  predicate Ends(cfg: Config, world: World, k: nat) {
    match world.response(k)
    case Raised => true
    case ToolUse(content, calls, _, _) => !Dispatchable(cfg, content, calls)
    case Stop(_, _, Invalid, _, _) => true
    case Stop(_, _, Valid(_, confidence, _), _, _) => confidence >= cfg.threshold || k + 1 == Budget(cfg)
    case OtherReason(_, _) => false
  }

  /** A tool-call response ends the run exactly when one of its calls has unreadable arguments
      or a blank name, or when its content is whitespace and nothing else. */
  lemma ToolUseEndsExactly(cfg: Config, world: World, k: nat)
    requires world.response(k).ToolUse? && !cfg.isSpace('U')
    ensures var r := world.response(k);
            Ends(cfg, world, k) <==>
            exists c :: c in r.calls && (c.arguments.Unreadable? || Blank(cfg.isSpace, c.name)
                                         || (r.content != "" && Blank(cfg.isSpace, r.content)))
  {
    var r := world.response(k);
    forall c | c in r.calls
      ensures Recordable(cfg, r.content, c) <==>
              !(c.arguments.Unreadable? || Blank(cfg.isSpace, c.name)
                || (r.content != "" && Blank(cfg.isSpace, r.content)))
    {
      StripBlank(cfg.isSpace, c.name);
      StripBlank(cfg.isSpace, Thought(r.content, c.name));
      assert Thought("", c.name)[0] == 'U';
    }
  }

  function Observation(cfg: Config, world: World, k: nat, j: nat, name: string): string {
    if name !in cfg.tools then cfg.unknownTool(name)
    else match world.toolResult(k, j)
         case Ok(text) => text
         case Err(error) => "Tool error: " + error
  }

  function Thought(content: string, name: string): string {
    if content != "" then content else "Using tool: " + name
  }

  function Nudge(cfg: Config, confidence: real): Message {
    User(cfg.nudge(confidence, cfg.threshold))
  }

  /** The replies to the first n calls of response k. */
  function Replies(cfg: Config, world: World, k: nat, calls: seq<ToolCall>, n: nat): (ms: seq<Message>)
    requires n <= |calls|
    ensures |ms| == n
    ensures forall j | 0 <= j < n :: ms[j] == Tool(calls[j].id, Observation(cfg, world, k, j, calls[j].name))
  {
    seq(n, j requires 0 <= j < n => Tool(calls[j].id, Observation(cfg, world, k, j, calls[j].name)))
  }

  function StepOf(cfg: Config, world: World, k: nat, content: string, j: nat, c: ToolCall): ReasoningStep
    requires Recordable(cfg, content, c)
  {
    ReasoningStep(k + 1, Strip(cfg.isSpace, Thought(content, c.name)), Strip(cfg.isSpace, c.name),
                  Recorded(cfg, c.arguments), Observation(cfg, world, k, j, c.name))
  }

  function Steps(cfg: Config, world: World, k: nat, content: string, calls: seq<ToolCall>,
                 n: nat): (ss: seq<ReasoningStep>)
    requires n <= |calls| && Dispatchable(cfg, content, calls[..n])
    ensures |ss| == n
    ensures forall j | 0 <= j < n ::
              Recordable(cfg, content, calls[..n][j]) && ss[j] == StepOf(cfg, world, k, content, j, calls[..n][j])
  {
    seq(n, j requires 0 <= j < n => StepOf(cfg, world, k, content, j, calls[..n][j]))
  }

  /** What response k adds to the conversation when it does not end the run. */
  function Added(cfg: Config, world: World, k: nat): seq<Message> {
    match world.response(k)
    case ToolUse(content, calls, _, _) => [Assistant(content, calls)] + Replies(cfg, world, k, calls, |calls|)
    case Stop(content, calls, answer, _, _) =>
      [Assistant(content, calls), Nudge(cfg, if answer.Valid? then answer.confidence else 0.0)]
    case OtherReason(_, _) => []
    case Raised => []
  }

  /** The conversation sent with request k. */
  function History(cfg: Config, world: World, k: nat): seq<Message> {
    if k == 0 then cfg.opening else History(cfg, world, k - 1) + Added(cfg, world, k - 1)
  }

  function StepsBefore(cfg: Config, world: World, k: nat): seq<ReasoningStep> {
    if k == 0 then []
    else
      StepsBefore(cfg, world, k - 1)
      + (match world.response(k - 1)
         case ToolUse(content, calls, _, _) =>
           if Dispatchable(cfg, content, calls) then
             assert calls[..|calls|] == calls;
             Steps(cfg, world, k - 1, content, calls, |calls|)
           else []
         case _ => [])
  }

  function PromptTokens(r: Response): nat {
    if r.Raised? then 0 else r.promptTokens
  }

  function CompletionTokens(r: Response): nat {
    if r.Raised? then 0 else r.completionTokens
  }

  function PromptSum(world: World, k: nat): nat {
    if k == 0 then 0 else PromptSum(world, k - 1) + PromptTokens(world.response(k - 1))
  }

  function CompletionSum(world: World, k: nat): nat {
    if k == 0 then 0 else CompletionSum(world, k - 1) + CompletionTokens(world.response(k - 1))
  }

  /** Confidence of the latest valid final answer among the first k responses, or 0. */
  function LatestConfidence(world: World, k: nat): real {
    if k == 0 then 0.0
    else match world.response(k - 1)
         case Stop(_, _, Valid(_, confidence, _), _, _) => confidence
         case _ => LatestConfidence(world, k - 1)
  }

  function ToolCallCount(world: World, n: nat): nat {
    if n == 0 then 0
    else ToolCallCount(world, n - 1)
         + (match world.response(n - 1) case ToolUse(_, calls, _, _) => |calls| case _ => 0)
  }

  /** Milliseconds between two clock readings, truncated. */
  function Millis(from: real, to: real): int {
    ((to - from) * 1000.0).Floor
  }

  /** Clock readings taken before request n: one at the start and two per tool call. */
  function Readings(world: World, n: nat): nat {
    1 + 2 * ToolCallCount(world, n)
  }

  /** The time of n tool calls, each truncated to milliseconds. */
  function CallMillis(world: World, reading: nat, n: nat): int {
    if n == 0 then 0
    else CallMillis(world, reading, n - 1) + Millis(world.clock(reading + 2 * n - 2), world.clock(reading + 2 * n - 1))
  }

  function ToolMillis(world: World, n: nat): int {
    if n == 0 then 0
    else ToolMillis(world, n - 1)
         + (match world.response(n - 1)
            case ToolUse(_, calls, _, _) => CallMillis(world, Readings(world, n - 1), |calls|)
            case _ => 0)
  }

  // ----- The conversation is well formed -----

  /** The API's rule: an assistant message with tool calls is followed at once by exactly one
      reply per call, in order, and replies stand nowhere else. */
  predicate WellFormed(ms: seq<Message>) {
    ms == [] ||
    match ms[0]
    case Tool(_, _) => false
    case Assistant(_, calls) => Answered(ms, calls) && WellFormed(ms[1 + |calls|..])
    case _ => WellFormed(ms[1..])
  }

  /** The messages after the first begin with one reply per call, in order. */
  predicate Answered(ms: seq<Message>, calls: seq<ToolCall>) {
    && |calls| < |ms|
    && forall i | 1 <= i <= |calls| :: ms[i].Tool? && ms[i].callId == calls[i - 1].id
  }

  /** The length of the block that ms[0] opens. */
  function Block(ms: seq<Message>): (n: nat)
    requires ms != []
    ensures n >= 1
  {
    if ms[0].Assistant? then 1 + |ms[0].calls| else 1
  }

  predicate BlockComplete(ms: seq<Message>)
    requires ms != []
  {
    !ms[0].Tool? && (ms[0].Assistant? ==> Answered(ms, ms[0].calls))
  }

  lemma OneBlock(ms: seq<Message>)
    requires ms != []
    ensures BlockComplete(ms) ==> Block(ms) <= |ms|
    ensures WellFormed(ms) <==> BlockComplete(ms) && WellFormed(ms[Block(ms)..])
  {}

  lemma BlockKept(a: seq<Message>, b: seq<Message>)
    requires a != [] && BlockComplete(a)
    ensures Block(a) <= |a| && BlockComplete(a + b) && Block(a + b) == Block(a)
    ensures (a + b)[Block(a)..] == a[Block(a)..] + b
  {}

  lemma {:induction false} WellFormedAppend(a: seq<Message>, b: seq<Message>)
    requires WellFormed(a)
    ensures WellFormed(a + b) <==> WellFormed(b)
    decreases |a|
  {
    if a == [] {
      assert a + b == b;
    } else {
      OneBlock(a);
      BlockKept(a, b);
      WellFormedAppend(a[Block(a)..], b);
      OneBlock(a + b);
    }
  }

  /** A final answer that also asks for tools, which get no reply if the run goes on. */
  predicate Dangling(r: Response) {
    r.Stop? && r.calls != []
  }

  lemma AddedWellFormed(cfg: Config, world: World, k: nat)
    requires !Dangling(world.response(k))
    ensures WellFormed(Added(cfg, world, k))
  {
    var r := world.response(k);
    if r.ToolUse? {
      assert Added(cfg, world, k)[1 + |r.calls|..] == [];
    } else if r.Stop? {
      var nudge := Nudge(cfg, if r.answer.Valid? then r.answer.confidence else 0.0);
      var ms := [Assistant(r.content, []), nudge];
      assert ms[1..] == [nudge] && [nudge][1..] == [];
    }
  }

  /** No continuation makes a well-formed conversation of it. */
  ghost predicate Ruined(h: seq<Message>) {
    forall tail :: !WellFormed(h + tail)
  }

  lemma DanglingRuins(cfg: Config, world: World, k: nat, h: seq<Message>)
    requires WellFormed(h) && Dangling(world.response(k))
    ensures Ruined(h + Added(cfg, world, k))
  {
    forall tail ensures !WellFormed(h + Added(cfg, world, k) + tail) {
      var rest := Added(cfg, world, k) + tail;
      assert h + Added(cfg, world, k) + tail == h + rest;
      WellFormedAppend(h, rest);
      assert rest[0] == Assistant(world.response(k).content, world.response(k).calls) && rest[1].User?;
      OneBlock(rest);
    }
  }

  lemma RuinedStays(h: seq<Message>, more: seq<Message>)
    requires Ruined(h)
    ensures Ruined(h + more) && !WellFormed(h)
  {
    forall tail ensures !WellFormed(h + more + tail) {
      assert h + more + tail == h + (more + tail);
    }
    assert h + [] == h;
  }

  lemma ExtensionWellFormed(cfg: Config, world: World, k: nat, before: seq<Message>)
    requires WellFormed(before) && !Dangling(world.response(k))
    ensures WellFormed(before + Added(cfg, world, k))
  {
    AddedWellFormed(cfg, world, k);
    WellFormedAppend(before, Added(cfg, world, k));
  }

  /** A clean conversation is well formed, any other ruined. (It is a bound variable only to
      keep the solver from reading it in every step.) */
  ghost predicate Shaped(h: seq<Message>, clean: bool) {
    forall ms | ms == h :: if clean then WellFormed(ms) else Ruined(ms)
  }

  lemma HistoryStep(cfg: Config, world: World, k: nat, h: seq<Message>, clean: bool, after: seq<Message>)
    requires Shaped(h, clean) && after == h + Added(cfg, world, k)
    ensures Shaped(after, clean && !Dangling(world.response(k)))
  {
    assert if clean then WellFormed(h) else Ruined(h);
    if !clean {
      RuinedStays(h, Added(cfg, world, k));
    } else if Dangling(world.response(k)) {
      DanglingRuins(cfg, world, k, h);
    } else {
      ExtensionWellFormed(cfg, world, k, h);
    }
  }

  lemma CleanOneMore(world: World, k: nat)
    ensures Clean(world, k + 1) <==> Clean(world, k) && !Dangling(world.response(k))
  {}

  predicate Clean(world: World, k: nat) {
    forall i | 0 <= i < k :: !Dangling(world.response(i))
  }

  lemma {:induction false} HistoryTurns(cfg: Config, world: World, k: nat, h: seq<Message>)
    requires Shaped(cfg.opening, true) && h == History(cfg, world, k)
    ensures Shaped(h, Clean(world, k))
  {
    if k > 0 {
      var before := History(cfg, world, k - 1);
      HistoryTurns(cfg, world, k - 1, before);
      CleanOneMore(world, k - 1);
      HistoryStep(cfg, world, k - 1, before, Clean(world, k - 1), h);
    }
  }

  /** The conversation sent with request k is well formed exactly when no final answer before
      it asked for tools too: such a message is sent back, and its calls are never answered. */
  lemma HistoryWellFormedExactly(cfg: Config, world: World, k: nat)
    requires WellFormed(cfg.opening)
    ensures WellFormed(History(cfg, world, k)) <==> forall i | 0 <= i < k :: !Dangling(world.response(i))
  {
    var h := History(cfg, world, k);
    HistoryTurns(cfg, world, k, h);
    assert if Clean(world, k) then WellFormed(h) else Ruined(h);
    if !Clean(world, k) {
      RuinedStays(h, []);
    }
  }

  /** The agent's own opening: a system and a user message. */
  function Opening(system: string, user: string): seq<Message> {
    [System(system), User(user)]
  }

  lemma OpeningWellFormed(system: string, user: string)
    ensures WellFormed(Opening(system, user))
  {
    assert Opening(system, user)[1..] == [User(user)] && [User(user)][1..] == [];
  }

  /** Step numbers never decrease and lie in 1..k: each is the request its call came from. */
  lemma {:induction false} StepNumbers(cfg: Config, world: World, k: nat)
    ensures forall i | 0 <= i < |StepsBefore(cfg, world, k)| :: 1 <= StepsBefore(cfg, world, k)[i].number <= k
    ensures forall i, j | 0 <= i < j < |StepsBefore(cfg, world, k)| ::
              StepsBefore(cfg, world, k)[i].number <= StepsBefore(cfg, world, k)[j].number
  {
    if k > 0 {
      StepNumbers(cfg, world, k - 1);
    }
  }

  // ----- The run -----

  /** n requests were made, and the n-th is the first that ends the run, or the budget is
      spent. */
  ghost predicate StopsAfter(cfg: Config, world: World, n: nat) {
    && n <= Budget(cfg)
    && (forall k | 0 <= k < n - 1 :: !Ends(cfg, world, k))
    && (n < Budget(cfg) ==> n > 0 && Ends(cfg, world, n - 1))
  }

  /** The result of a final answer to request k. */
  function ResultOf(cfg: Config, world: World, k: nat, rootCause: string, confidence: real,
                    recommendations: seq<string>): RCAResult {
    var totalMs, toolMs := Millis(world.clock(0), world.clock(Readings(world, k))), ToolMillis(world, k);
    RCAResult(rootCause, confidence, recommendations, StepsBefore(cfg, world, k),
              PromptSum(world, k + 1), CompletionSum(world, k + 1), totalMs, totalMs - toolMs, toolMs)
  }

  /** The result's own schema. */
  predicate Accepted(cfg: Config, r: RCAResult) {
    cfg.compressionRatio > 0.0 && r.totalMs >= 0 && r.llmMs >= 0 && r.toolMs >= 0
  }

  /** How response k ends the run. */
  ghost predicate Concludes(cfg: Config, world: World, k: nat, outcome: Outcome)
    requires Ends(cfg, world, k)
  {
    match world.response(k)
    case Raised => outcome == ClientError
    case ToolUse(_, _, _, _) => outcome == BadToolCall
    case Stop(content, _, Invalid, _, _) => outcome == SchemaInvalid(content)
    case Stop(_, _, Valid(rootCause, confidence, recommendations), _, _) =>
      var result := ResultOf(cfg, world, k, rootCause, confidence, recommendations);
      outcome == if Accepted(cfg, result) then Success(result) else ResultRejected
  }

  /** What the run reports when it stops after n requests. */
  ghost predicate Reports(cfg: Config, world: World, n: nat, outcome: Outcome)
    requires StopsAfter(cfg, world, n)
  {
    if n > 0 && Ends(cfg, world, n - 1) then Concludes(cfg, world, n - 1, outcome)
    else outcome == LowConfidence(LatestConfidence(world, n), n)
  }

  /** The agent's variables after n responses, none of which ended the run. */
  ghost predicate UpToDate(cfg: Config, world: World, n: nat, messages: seq<Message>, steps: seq<ReasoningStep>,
                           inputTokens: nat, outputTokens: nat, latest: Option<real>, toolMs: int, reading: nat) {
    && messages == History(cfg, world, n)
    && steps == StepsBefore(cfg, world, n)
    && inputTokens == PromptSum(world, n) && outputTokens == CompletionSum(world, n)
    && LatestConfidence(world, n) == (if latest.Some? then latest.value else 0.0)
    && toolMs == ToolMillis(world, n) && reading == Readings(world, n)
  }

  /** The conversations sent so far. */
  ghost predicate Sent(cfg: Config, world: World, requests: seq<seq<Message>>) {
    forall k {:trigger requests[k]} | 0 <= k < |requests| :: requests[k] == History(cfg, world, k)
  }

  /** None of the first n responses ended the run. */
  ghost predicate Survived(cfg: Config, world: World, n: nat) {
    forall k | 0 <= k < n :: !Ends(cfg, world, k)
  }

  lemma SentOneMore(cfg: Config, world: World, requests: seq<seq<Message>>, messages: seq<Message>)
    requires Sent(cfg, world, requests) && messages == History(cfg, world, |requests|)
    ensures Sent(cfg, world, requests + [messages])
  {
    forall k | 0 <= k < |requests| + 1 ensures (requests + [messages])[k] == History(cfg, world, k) {
      if k < |requests| {
        assert (requests + [messages])[k] == requests[k];
      }
    }
  }

  /** Each request the agent sends after its own opening is well formed exactly when no final
      answer before it asked for tools too. */
  lemma RequestsWellFormedExactly(cfg: Config, world: World, requests: seq<seq<Message>>, k: nat,
                                  system: string, user: string)
    requires Sent(cfg, world, requests) && k < |requests| && cfg.opening == Opening(system, user)
    ensures WellFormed(requests[k]) <==> forall i | 0 <= i < k :: !Dangling(world.response(i))
  {
    OpeningWellFormed(system, user);
    HistoryWellFormedExactly(cfg, world, k);
    assert requests[k] == History(cfg, world, k);
  }

  lemma Stopped(cfg: Config, world: World, requests: seq<seq<Message>>, k: nat, outcome: Outcome)
    requires Survived(cfg, world, k) && |requests| == k + 1 <= Budget(cfg)
    requires Ends(cfg, world, k) && Concludes(cfg, world, k, outcome)
    ensures StopsAfter(cfg, world, |requests|) && Reports(cfg, world, |requests|, outcome)
  {}

  lemma Exhausted(cfg: Config, world: World, requests: seq<seq<Message>>, latest: Option<real>, outcome: Outcome)
    requires Survived(cfg, world, |requests|) && |requests| == Budget(cfg)
    requires LatestConfidence(world, |requests|) == if latest.Some? then latest.value else 0.0
    requires outcome == LowConfidence(if latest.Some? then latest.value else 0.0, |requests|)
    ensures StopsAfter(cfg, world, |requests|) && Reports(cfg, world, |requests|, outcome)
  {}

  /** Makes at most Budget(cfg) requests. requests lists the conversations sent; request k is
      the opening plus what the responses before it added. */
  method Run(cfg: Config, world: World) returns (outcome: Outcome, requests: seq<seq<Message>>)
    ensures StopsAfter(cfg, world, |requests|)
    ensures Sent(cfg, world, requests)
    ensures Reports(cfg, world, |requests|, outcome)
  {
    var startTime := world.clock(0);
    var reading := 1;
    var messages := cfg.opening;
    var steps: seq<ReasoningStep> := [];
    var inputTokens: nat, outputTokens: nat, toolMs := 0, 0, 0;
    var latest: Option<real> := None;
    var iteration := 0;
    requests := [];
    while iteration < cfg.maxIterations
      invariant 0 <= iteration <= Budget(cfg) && iteration == |requests|
      invariant Sent(cfg, world, requests) && Survived(cfg, world, iteration)
      invariant UpToDate(cfg, world, iteration, messages, steps, inputTokens, outputTokens, latest, toolMs, reading)
    {
      SentOneMore(cfg, world, requests, messages);
      requests := requests + [messages];
      var ended: Option<Outcome>;
      ended, messages, steps, inputTokens, outputTokens, latest, toolMs, reading :=
        Turn(cfg, world, iteration, messages, steps, inputTokens, outputTokens, latest, toolMs, reading, startTime);
      if ended.Some? {
        outcome := ended.value;
        Stopped(cfg, world, requests, iteration, outcome);
        return;
      }
      iteration := iteration + 1;
    }
    outcome := LowConfidence(if latest.Some? then latest.value else 0.0, iteration);
    Exhausted(cfg, world, requests, latest, outcome);
  }

  /** One pass through the loop, from the response to request k. */
  method Turn(cfg: Config, world: World, k: nat, messages: seq<Message>, steps: seq<ReasoningStep>,
              inputTokens: nat, outputTokens: nat, latest: Option<real>, toolMs: int, reading: nat, startTime: real)
    returns (ended: Option<Outcome>, messages': seq<Message>, steps': seq<ReasoningStep>,
             inputTokens': nat, outputTokens': nat, latest': Option<real>, toolMs': int, reading': nat)
    requires UpToDate(cfg, world, k, messages, steps, inputTokens, outputTokens, latest, toolMs, reading)
    requires startTime == world.clock(0) && k < Budget(cfg)
    ensures ended.Some? <==> Ends(cfg, world, k)
    ensures ended.Some? ==> Concludes(cfg, world, k, ended.value)
    ensures ended.None? ==>
              UpToDate(cfg, world, k + 1, messages', steps', inputTokens', outputTokens', latest', toolMs', reading')
  {
    messages', steps', inputTokens', outputTokens', latest', toolMs', reading' :=
      messages, steps, inputTokens, outputTokens, latest, toolMs, reading;
    var response := world.response(k);
    if response.Raised? {
      return Some(ClientError), messages', steps', inputTokens', outputTokens', latest', toolMs', reading';
    }
    inputTokens' := inputTokens + response.promptTokens;
    outputTokens' := outputTokens + response.completionTokens;
    ended := None;
    if response.ToolUse? {
      messages' := messages + [Assistant(response.content, response.calls)];
      var dispatched;
      dispatched, messages', steps', toolMs', reading' :=
        Dispatch(cfg, world, k, response.content, response.calls, messages', steps, toolMs, reading);
      if !dispatched {
        ended := Some(BadToolCall);
      } else {
        AfterToolUse(cfg, world, k, messages);
      }
    } else if response.Stop? {
      var answer := response.answer;
      if answer.Invalid? {
        ended := Some(SchemaInvalid(response.content));
      } else {
        latest' := Some(answer.confidence);
        if answer.confidence >= cfg.threshold || k + 1 == cfg.maxIterations {
          var totalMs := Millis(startTime, world.clock(reading));
          var result := RCAResult(answer.rootCause, answer.confidence, answer.recommendations, steps,
                                  inputTokens', outputTokens', totalMs, totalMs - toolMs, toolMs);
          ended := Some(if Accepted(cfg, result) then Success(result) else ResultRejected);
        } else {
          messages' := messages + [Assistant(response.content, response.calls), Nudge(cfg, answer.confidence)];
          AfterStop(cfg, world, k, messages);
        }
      }
    }
  }

  lemma AfterStop(cfg: Config, world: World, k: nat, messages: seq<Message>)
    requires world.response(k).Stop? && world.response(k).answer.Valid? && messages == History(cfg, world, k)
    ensures var r := world.response(k);
            messages + [Assistant(r.content, r.calls), Nudge(cfg, r.answer.confidence)] == History(cfg, world, k + 1)
  {}

  lemma AfterToolUse(cfg: Config, world: World, k: nat, messages: seq<Message>)
    requires world.response(k).ToolUse?
    requires Dispatchable(cfg, world.response(k).content, world.response(k).calls)
    requires messages == History(cfg, world, k)
    ensures var r := world.response(k);
            messages + [Assistant(r.content, r.calls)] + Replies(cfg, world, k, r.calls, |r.calls|)
            == History(cfg, world, k + 1)
  {
    var r := world.response(k);
    assert messages + [Assistant(r.content, r.calls)] + Replies(cfg, world, k, r.calls, |r.calls|)
        == messages + ([Assistant(r.content, r.calls)] + Replies(cfg, world, k, r.calls, |r.calls|));
  }

  lemma OneMoreCall(cfg: Config, world: World, k: nat, content: string, calls: seq<ToolCall>, j: nat)
    requires j < |calls| && Dispatchable(cfg, content, calls[..j]) && Recordable(cfg, content, calls[j])
    ensures Dispatchable(cfg, content, calls[..j + 1])
    ensures Steps(cfg, world, k, content, calls, j + 1)
         == Steps(cfg, world, k, content, calls, j) + [StepOf(cfg, world, k, content, j, calls[j])]
    ensures Replies(cfg, world, k, calls, j + 1)
         == Replies(cfg, world, k, calls, j) + [Tool(calls[j].id, Observation(cfg, world, k, j, calls[j].name))]
  {
    assert calls[..j + 1] == calls[..j] + [calls[j]];
    var before, after := Steps(cfg, world, k, content, calls, j), Steps(cfg, world, k, content, calls, j + 1);
    forall i | 0 <= i < j ensures after[i] == before[i] {
      assert calls[..j + 1][i] == calls[..j][i];
    }
  }

  lemma Appended<T>(a: seq<T>, b: seq<T>, longer: seq<T>)
    requires |longer| == |b| + 1 && longer == b + [longer[|b|]]
    ensures a + longer == a + b + [longer[|b|]]
  {}

  lemma CallMillisOneMore(world: World, reading: nat, n: nat)
    ensures CallMillis(world, reading, n + 1)
         == CallMillis(world, reading, n) + Millis(world.clock(reading + 2 * n), world.clock(reading + 2 * n + 1))
  {}

  lemma RefusedCall(cfg: Config, content: string, calls: seq<ToolCall>, j: nat)
    requires j < |calls| && !Recordable(cfg, content, calls[j])
    ensures !Dispatchable(cfg, content, calls)
  {
    assert calls[j] in calls;
  }

  /** Answers every call of one response, in order, timing each. */
  method Dispatch(cfg: Config, world: World, k: nat, content: string, calls: seq<ToolCall>,
                  messages: seq<Message>, steps: seq<ReasoningStep>, toolMs: int, reading: nat)
    returns (dispatched: bool, messages': seq<Message>, steps': seq<ReasoningStep>, toolMs': int, reading': nat)
    ensures dispatched <==> Dispatchable(cfg, content, calls)
    ensures dispatched ==>
              && calls[..|calls|] == calls
              && messages' == messages + Replies(cfg, world, k, calls, |calls|)
              && steps' == steps + Steps(cfg, world, k, content, calls, |calls|)
              && toolMs' == toolMs + CallMillis(world, reading, |calls|)
              && reading' == reading + 2 * |calls|
  {
    messages', steps', toolMs', reading' := messages, steps, toolMs, reading;
    for j := 0 to |calls|
      invariant Dispatchable(cfg, content, calls[..j])
      invariant messages' == messages + Replies(cfg, world, k, calls, j)
      invariant steps' == steps + Steps(cfg, world, k, content, calls, j)
      invariant toolMs' == toolMs + CallMillis(world, reading, j) && reading' == reading + 2 * j
    {
      var call := calls[j];
      var thought, action := Strip(cfg.isSpace, Thought(content, call.name)), Strip(cfg.isSpace, call.name);
      if call.arguments.Unreadable? || thought == "" || action == "" {
        RefusedCall(cfg, content, calls, j);
        return false, messages', steps', toolMs', reading';
      }
      OneMoreCall(cfg, world, k, content, calls, j);
      CallMillisOneMore(world, reading, j);
      Appended(messages, Replies(cfg, world, k, calls, j), Replies(cfg, world, k, calls, j + 1));
      Appended(steps, Steps(cfg, world, k, content, calls, j), Steps(cfg, world, k, content, calls, j + 1));
      var toolStart := world.clock(reading');
      var observation := Observation(cfg, world, k, j, call.name);
      toolMs' := toolMs' + Millis(toolStart, world.clock(reading' + 1));
      reading' := reading' + 2;
      steps' := steps' + [ReasoningStep(k + 1, thought, action, Recorded(cfg, call.arguments), observation)];
      messages' := messages' + [Tool(call.id, observation)];
    }
    assert calls[..|calls|] == calls;
    dispatched := true;
  }

  // ----- What the requests say -----

  /** The answer to a call: the tool's own text or its error if it is registered, and else that
      it is unknown. */
  ghost predicate Answers(cfg: Config, world: World, k: nat, j: nat, name: string, text: string) {
    if name in cfg.tools then
      match world.toolResult(k, j)
      case Ok(value) => text == value
      case Err(error) => text == "Tool error: " + error
    else text == cfg.unknownTool(name)
  }

  /** What a request adds to the one before it: a tool-call response and one answer per call,
      or a final answer and a nudge, or nothing. */
  ghost predicate Adds(cfg: Config, world: World, k: nat, added: seq<Message>) {
    match world.response(k)
    case ToolUse(content, calls, _, _) =>
      && |added| == 1 + |calls| && added[0] == Assistant(content, calls)
      && forall m | 1 <= m <= |calls| ::
           added[m].Tool? && added[m].callId == calls[m - 1].id
           && Answers(cfg, world, k, m - 1, calls[m - 1].name, added[m].text)
    case Stop(content, calls, answer, _, _) =>
      && answer.Valid? && |added| == 2 && added[0] == Assistant(content, calls)
      && added[1] == User(cfg.nudge(answer.confidence, cfg.threshold))
    case OtherReason(_, _) => added == []
    case Raised => false
  }

  lemma AddedAdds(cfg: Config, world: World, k: nat)
    requires !Ends(cfg, world, k)
    ensures Adds(cfg, world, k, Added(cfg, world, k))
  {
    if world.response(k).ToolUse? {
      var calls, added := world.response(k).calls, Added(cfg, world, k);
      forall m | 1 <= m <= |calls|
        ensures added[m] == Tool(calls[m - 1].id, Observation(cfg, world, k, m - 1, calls[m - 1].name))
      {
        assert added[m] == Replies(cfg, world, k, calls, |calls|)[m - 1];
      }
    }
  }

  /** The first request is the opening, and each goes on from the one before it. */
  lemma RequestsExactly(cfg: Config, world: World, requests: seq<seq<Message>>, i: nat)
    requires Sent(cfg, world, requests) && i < |requests| && Survived(cfg, world, |requests| - 1)
    ensures requests[0] == cfg.opening
    ensures i + 1 < |requests| ==>
              requests[i] <= requests[i + 1] && Adds(cfg, world, i, requests[i + 1][|requests[i]|..])
  {
    assert requests[0] == History(cfg, world, 0);
    if i + 1 < |requests| {
      var before, after := requests[i], requests[i + 1];
      assert before == History(cfg, world, i) && after == History(cfg, world, i + 1) && !Ends(cfg, world, i);
      HistoryNext(cfg, world, i, before, after);
    }
  }

  lemma HistoryNext(cfg: Config, world: World, k: nat, before: seq<Message>, after: seq<Message>)
    requires before == History(cfg, world, k) && after == History(cfg, world, k + 1) && !Ends(cfg, world, k)
    ensures before <= after && Adds(cfg, world, k, after[|before|..])
  {
    AddedAdds(cfg, world, k);
    assert after[|before|..] == Added(cfg, world, k);
  }

  lemma {:induction false} Grows(requests: seq<seq<Message>>, i: nat, k: nat)
    requires i <= k < |requests| && forall m | i < m <= k :: requests[m - 1] <= requests[m]
    ensures requests[i] <= requests[k]
  {
    if i < k {
      Grows(requests, i, k - 1);
    }
  }

  lemma RequestsGrow(cfg: Config, world: World, requests: seq<seq<Message>>, i: nat, k: nat)
    requires Sent(cfg, world, requests) && i <= k < |requests| && Survived(cfg, world, |requests| - 1)
    ensures requests[i] <= requests[k]
  {
    forall m | i < m <= k ensures requests[m - 1] <= requests[m] {
      RequestsExactly(cfg, world, requests, m - 1);
    }
    Grows(requests, i, k);
  }

  /** The tool calls of response i stand at a position of the conversation, and the j-th of them
      has its answer where it belongs. */
  ghost predicate AnsweredAt(cfg: Config, world: World, i: nat, j: nat, at: nat, ms: seq<Message>)
    requires world.response(i).ToolUse? && j < |world.response(i).calls|
  {
    var r := world.response(i);
    && at + 1 + j < |ms| && ms[at] == Assistant(r.content, r.calls)
    && ms[at + 1 + j].Tool? && ms[at + 1 + j].callId == r.calls[j].id
    && Answers(cfg, world, i, j, r.calls[j].name, ms[at + 1 + j].text)
  }

  /** Every tool call made before request k stands in it, at the end of the request it answered,
      and is itself answered there. */
  lemma AnsweredInEveryRequest(cfg: Config, world: World, requests: seq<seq<Message>>, k: nat, i: nat, j: nat)
    requires Sent(cfg, world, requests) && i < k < |requests| && Survived(cfg, world, |requests| - 1)
    requires world.response(i).ToolUse? && j < |world.response(i).calls|
    ensures AnsweredAt(cfg, world, i, j, |requests[i]|, requests[k])
  {
    var before, after, later := requests[i], requests[i + 1], requests[k];
    assert before <= after && Adds(cfg, world, i, after[|before|..]) by {
      RequestsExactly(cfg, world, requests, i);
    }
    assert after <= later by {
      RequestsGrow(cfg, world, requests, i + 1, k);
    }
    AnswerStays(cfg, world, i, j, before, after, later);
  }

  lemma AnswerStays(cfg: Config, world: World, i: nat, j: nat, before: seq<Message>, after: seq<Message>,
                    later: seq<Message>)
    requires before <= after <= later && Adds(cfg, world, i, after[|before|..])
    requires world.response(i).ToolUse? && j < |world.response(i).calls|
    ensures AnsweredAt(cfg, world, i, j, |before|, later)
  {
    assert after[|before|..][j + 1].Tool?;
    Inside(before, after, later, 0);
    Inside(before, after, later, j + 1);
  }

  lemma Inside(a: seq<Message>, b: seq<Message>, c: seq<Message>, j: nat)
    requires a <= b <= c && j < |b| - |a|
    ensures b[|a|..][j] == c[|a| + j]
  {}

  // ----- What the reports mean -----

  /** The loop goes on after a response to a request that is not the last: tool calls with
      readable arguments, names that are not blank and a thought that is not, or a valid final
      answer below the threshold, or an unexpected finish reason. */
  ghost predicate GoesOn(cfg: Config, r: Response, last: bool) {
    match r
    case ToolUse(content, calls, _, _) =>
      forall c | c in calls ::
        && !c.arguments.Unreadable? && !Blank(cfg.isSpace, c.name)
        && (content != "" ==> !Blank(cfg.isSpace, content))
    case Stop(_, _, answer, _, _) => answer.Valid? && answer.confidence < cfg.threshold && !last
    case OtherReason(_, _) => true
    case Raised => false
  }

  lemma EndsExactly(cfg: Config, world: World, k: nat)
    requires !cfg.isSpace('U')
    ensures Ends(cfg, world, k) <==> !GoesOn(cfg, world.response(k), k + 1 == cfg.maxIterations)
  {
    if world.response(k).ToolUse? {
      ToolUseEndsExactly(cfg, world, k);
    }
  }

  /** Requests are made until one is answered by something else or the budget is used, and
      what is raised then depends on that last response. */
  lemma RunExactly(cfg: Config, world: World, n: nat, outcome: Outcome)
    requires !cfg.isSpace('U') && Monotonic(world.clock)
    requires StopsAfter(cfg, world, n) && Reports(cfg, world, n, outcome)
    ensures forall k | 0 <= k < n - 1 :: GoesOn(cfg, world.response(k), false)
    ensures if n == 0 || GoesOn(cfg, world.response(n - 1), n == cfg.maxIterations) then
              n == (if cfg.maxIterations < 0 then 0 else cfg.maxIterations) && outcome.LowConfidence?
            else
              match world.response(n - 1)
              case Raised => outcome == ClientError
              case ToolUse(_, _, _, _) => outcome == BadToolCall
              case Stop(content, _, Invalid, _, _) => outcome == SchemaInvalid(content)
              case Stop(_, _, Valid(_, _, _), _, _) =>
                if cfg.compressionRatio > 0.0 then outcome.Success? else outcome == ResultRejected
              case OtherReason(_, _) => false
    ensures n <= if cfg.maxIterations < 0 then 0 else cfg.maxIterations
  {
    forall k | 0 <= k < n ensures Ends(cfg, world, k) <==> !GoesOn(cfg, world.response(k), k + 1 == cfg.maxIterations) {
      EndsExactly(cfg, world, k);
    }
    if n > 0 && world.response(n - 1).Stop? && world.response(n - 1).answer.Valid? {
      var a := world.response(n - 1).answer;
      LatencySplit(cfg, world, n - 1, a.rootCause, a.confidence, a.recommendations);
    }
  }

  /** The tokens of each of the first n responses. */
  ghost predicate Tokens(world: World, n: nat, prompts: seq<int>, completions: seq<int>) {
    && |prompts| == |completions| == n
    && forall i | 0 <= i < n ::
         var r := world.response(i);
         && prompts[i] == (if r.Raised? then 0 else r.promptTokens)
         && completions[i] == if r.Raised? then 0 else r.completionTokens
  }

  lemma {:induction false} TokenSums(world: World, n: nat, prompts: seq<int>, completions: seq<int>)
    requires Tokens(world, n, prompts, completions)
    ensures PromptSum(world, n) == SumOf(prompts) && CompletionSum(world, n) == SumOf(completions)
  {
    if n > 0 {
      TokenSums(world, n - 1, prompts[..n - 1], completions[..n - 1]);
    }
  }

  /** The time of each of the first n tool calls, truncated to milliseconds. The clock is read
      at the start of the run and before and after each call. */
  ghost predicate Times(world: World, n: nat, times: seq<int>) {
    |times| == n
    && forall c | 0 <= c < n :: times[c] == ((world.clock(2 * c + 2) - world.clock(2 * c + 1)) * 1000.0).Floor
  }

  lemma {:induction false} CallTimes(world: World, first: nat, n: nat, times: seq<int>)
    requires Times(world, first + n, times)
    ensures CallMillis(world, 1 + 2 * first, n) == SumOf(times) - SumOf(times[..first])
  {
    if n == 0 {
      assert times[..first] == times;
    } else {
      var front := times[..first + n - 1];
      CallTimes(world, first, n - 1, front);
      assert front[..first] == times[..first];
    }
  }

  lemma {:induction false} TimeSums(world: World, n: nat, times: seq<int>)
    requires Times(world, ToolCallCount(world, n), times)
    ensures ToolMillis(world, n) == SumOf(times)
  {
    if n > 0 {
      var before, r := ToolCallCount(world, n - 1), world.response(n - 1);
      TimeSums(world, n - 1, times[..before]);
      if r.ToolUse? {
        CallTimes(world, before, |r.calls|, times);
      } else {
        assert times[..before] == times;
      }
    }
  }

  /** The number of calls of each of the first n responses. */
  ghost predicate CallCounts(world: World, n: nat, counts: seq<int>) {
    |counts| == n
    && forall i | 0 <= i < n ::
         counts[i] == if world.response(i).ToolUse? then |world.response(i).calls| else 0
  }

  lemma {:induction false} CallSums(world: World, n: nat, counts: seq<int>)
    requires CallCounts(world, n, counts)
    ensures ToolCallCount(world, n) == SumOf(counts)
  {
    if n > 0 {
      CallSums(world, n - 1, counts[..n - 1]);
    }
  }

  /** A result carries the answer of the last response, the tokens of all responses, the tools'
      time, the whole time, and the difference. */
  ghost predicate Sums(world: World, r: RCAResult, a: Answer, prompts: seq<int>, completions: seq<int>,
                       counts: seq<int>, times: seq<int>) {
    && a.Valid?
    && r.rootCause == a.rootCause && r.confidence == a.confidence && r.recommendations == a.recommendations
    && r.inputTokens == SumOf(prompts) && r.outputTokens == SumOf(completions)
    && |r.steps| == SumOf(counts)
    && r.toolMs == SumOf(times)
    && r.totalMs == ((world.clock(2 * |r.steps| + 1) - world.clock(0)) * 1000.0).Floor
    && r.llmMs == r.totalMs - r.toolMs
  }

  lemma SuccessIs(cfg: Config, world: World, n: nat, outcome: Outcome)
    requires StopsAfter(cfg, world, n) && Reports(cfg, world, n, outcome) && outcome.Success?
    ensures n > 0 && world.response(n - 1).Stop? && world.response(n - 1).answer.Valid? && Survived(cfg, world, n - 1)
    ensures var a := world.response(n - 1).answer;
            outcome.result == ResultOf(cfg, world, n - 1, a.rootCause, a.confidence, a.recommendations)
  {}

  lemma ResultSums(cfg: Config, world: World, k: nat, a: Answer, r: RCAResult, prompts: seq<int>,
                   completions: seq<int>, counts: seq<int>, times: seq<int>)
    requires Survived(cfg, world, k) && a.Valid? && !world.response(k).ToolUse?
    requires r == ResultOf(cfg, world, k, a.rootCause, a.confidence, a.recommendations)
    requires Tokens(world, k + 1, prompts, completions) && CallCounts(world, k + 1, counts)
    requires Times(world, |r.steps|, times)
    ensures Sums(world, r, a, prompts, completions, counts, times)
  {
    TokenSums(world, k + 1, prompts, completions);
    ResultTimes(cfg, world, k, a, r, counts, times);
  }

  lemma ResultTimes(cfg: Config, world: World, k: nat, a: Answer, r: RCAResult, counts: seq<int>, times: seq<int>)
    requires Survived(cfg, world, k) && a.Valid? && !world.response(k).ToolUse?
    requires r == ResultOf(cfg, world, k, a.rootCause, a.confidence, a.recommendations)
    requires CallCounts(world, k + 1, counts) && Times(world, |r.steps|, times)
    ensures |r.steps| == SumOf(counts) && r.toolMs == SumOf(times)
    ensures r.totalMs == ((world.clock(2 * |r.steps| + 1) - world.clock(0)) * 1000.0).Floor
  {
    CallSums(world, k + 1, counts);
    StepPerCall(cfg, world, k);
    TimeSums(world, k, times);
    assert Readings(world, k) == 2 * |r.steps| + 1;
  }

  /** So does the result of a run that succeeds. */
  lemma SuccessReports(cfg: Config, world: World, n: nat, outcome: Outcome, prompts: seq<int>, completions: seq<int>,
                       counts: seq<int>, times: seq<int>)
    requires StopsAfter(cfg, world, n) && Reports(cfg, world, n, outcome) && outcome.Success?
    requires Tokens(world, n, prompts, completions) && CallCounts(world, n, counts)
    requires Times(world, |outcome.result.steps|, times)
    ensures n > 0 && world.response(n - 1).Stop?
    ensures Sums(world, outcome.result, world.response(n - 1).answer, prompts, completions, counts, times)
  {
    SuccessIs(cfg, world, n, outcome);
    ResultSums(cfg, world, n - 1, world.response(n - 1).answer, outcome.result, prompts, completions, counts, times);
  }

  /** The step record of a call: its number is that of the request, its thought is the text
      beside the calls or else names the tool, its observation is the answer. */
  ghost predicate Records(cfg: Config, world: World, i: nat, content: string, j: nat, c: ToolCall,
                          step: ReasoningStep) {
    && step.number == i + 1
    && Stripped(cfg.isSpace, if content != "" then content else "Using tool: " + c.name, step.thought)
    && Stripped(cfg.isSpace, c.name, step.action)
    && (match c.arguments
        case Text(text) => step.input.Text? && Stripped(cfg.isSpace, text, step.input.text)
        case Object(_) => step.input == c.arguments
        case Unreadable => false)
    && Answers(cfg, world, i, j, c.name, step.observation)
  }

  lemma StepRecords(cfg: Config, world: World, i: nat, content: string, j: nat, c: ToolCall)
    requires Recordable(cfg, content, c)
    ensures Records(cfg, world, i, content, j, c, StepOf(cfg, world, i, content, j, c))
  {
    StripExactly(cfg.isSpace, Thought(content, c.name));
    StripExactly(cfg.isSpace, c.name);
    if c.arguments.Text? {
      StripExactly(cfg.isSpace, c.arguments.text);
    }
  }

  /** Every tool call has its step, in the order of the calls. */
  lemma StepsExactly(cfg: Config, world: World, n: nat, i: nat, j: nat, counts: seq<int>)
    requires Survived(cfg, world, n) && i < n && CallCounts(world, i, counts)
    requires world.response(i).ToolUse? && j < |world.response(i).calls|
    ensures 0 <= SumOf(counts) + j < |StepsBefore(cfg, world, n)|
    ensures var r := world.response(i);
            Records(cfg, world, i, r.content, j, r.calls[j], StepsBefore(cfg, world, n)[SumOf(counts) + j])
  {
    var at, after, steps := SumOf(counts) + j, StepsBefore(cfg, world, i + 1), StepsBefore(cfg, world, n);
    var r := world.response(i);
    assert at == |StepsBefore(cfg, world, i)| + j by {
      CallSums(world, i, counts);
      StepPerCall(cfg, world, i);
    }
    assert at < |after| && Records(cfg, world, i, r.content, j, r.calls[j], after[at]) by {
      OwnStep(cfg, world, i, j, at);
    }
    StepStays(cfg, world, n, i, after, steps, at);
  }

  lemma OwnStep(cfg: Config, world: World, i: nat, j: nat, at: nat)
    requires !Ends(cfg, world, i) && world.response(i).ToolUse? && j < |world.response(i).calls|
    requires at == |StepsBefore(cfg, world, i)| + j
    ensures at < |StepsBefore(cfg, world, i + 1)|
    ensures var r := world.response(i);
            Records(cfg, world, i, r.content, j, r.calls[j], StepsBefore(cfg, world, i + 1)[at])
  {
    OwnSteps(cfg, world, i, j, StepsBefore(cfg, world, i), StepsBefore(cfg, world, i + 1));
  }

  lemma StepStays(cfg: Config, world: World, n: nat, i: nat, after: seq<ReasoningStep>, steps: seq<ReasoningStep>,
                  at: nat)
    requires Survived(cfg, world, n) && i < n && at < |after|
    requires after == StepsBefore(cfg, world, i + 1) && steps == StepsBefore(cfg, world, n)
    ensures at < |steps| && steps[at] == after[at]
  {
    StepsGrow(cfg, world, i + 1, n, after, steps);
  }

  lemma StepsOneMore(cfg: Config, world: World, i: nat, before: seq<ReasoningStep>, after: seq<ReasoningStep>)
    requires !Ends(cfg, world, i)
    requires before == StepsBefore(cfg, world, i) && after == StepsBefore(cfg, world, i + 1)
    ensures before <= after
  {}

  lemma OwnSteps(cfg: Config, world: World, i: nat, j: nat, before: seq<ReasoningStep>, after: seq<ReasoningStep>)
    requires !Ends(cfg, world, i) && world.response(i).ToolUse? && j < |world.response(i).calls|
    requires before == StepsBefore(cfg, world, i) && after == StepsBefore(cfg, world, i + 1)
    ensures |before| + j < |after|
    ensures var r := world.response(i);
            Records(cfg, world, i, r.content, j, r.calls[j], after[|before| + j])
  {
    var r := world.response(i);
    assert r.calls[..|r.calls|] == r.calls;
    var steps := Steps(cfg, world, i, r.content, r.calls, |r.calls|);
    assert after == before + steps;
    assert steps[j] == StepOf(cfg, world, i, r.content, j, r.calls[j]);
    StepRecords(cfg, world, i, r.content, j, r.calls[j]);
  }

  lemma {:induction false} StepsGrow(cfg: Config, world: World, i: nat, n: nat, before: seq<ReasoningStep>,
                                     after: seq<ReasoningStep>)
    requires Survived(cfg, world, n) && i <= n
    requires before == StepsBefore(cfg, world, i) && after == StepsBefore(cfg, world, n)
    ensures before <= after
  {
    if i < n {
      var middle := StepsBefore(cfg, world, n - 1);
      StepsGrow(cfg, world, i, n - 1, before, middle);
      StepsOneMore(cfg, world, n - 1, middle, after);
    }
  }

  /** The low-confidence error is raised exactly when the whole budget is used and the last
      response was neither stop nor length nor a failure; it carries the latest stop's
      confidence, which was below the threshold, or 0. */
  lemma LowConfidenceExactly(cfg: Config, world: World, n: nat, outcome: Outcome)
    requires StopsAfter(cfg, world, n) && Reports(cfg, world, n, outcome)
    ensures outcome.LowConfidence? <==>
            && n == Budget(cfg)
            && (n > 0 ==> match world.response(n - 1)
                          case ToolUse(content, calls, _, _) => Dispatchable(cfg, content, calls)
                          case OtherReason(_, _) => true
                          case _ => false)
    ensures outcome.LowConfidence? ==> outcome.iterations == n
    ensures outcome.LowConfidence? && (exists k | 0 <= k < n :: world.response(k).Stop?) ==>
              exists k | 0 <= k < n ::
                && world.response(k).Stop? && world.response(k).answer.Valid?
                && outcome.confidence == world.response(k).answer.confidence < cfg.threshold
                && forall k' | k < k' < n :: !world.response(k').Stop?
    ensures outcome.LowConfidence? && !(exists k | 0 <= k < n :: world.response(k).Stop?) ==> outcome.confidence == 0.0
  {
    if outcome.LowConfidence? {
      forall k | 0 <= k < n ensures !Ends(cfg, world, k) {}
      LatestIsLast(cfg, world, n);
    }
  }

  lemma {:induction false} LatestIsLast(cfg: Config, world: World, n: nat)
    requires forall k | 0 <= k < n :: !Ends(cfg, world, k)
    ensures (exists k | 0 <= k < n :: world.response(k).Stop?) ==>
              exists k | 0 <= k < n ::
                && world.response(k).Stop? && world.response(k).answer.Valid?
                && LatestConfidence(world, n) == world.response(k).answer.confidence < cfg.threshold
                && forall k' | k < k' < n :: !world.response(k').Stop?
    ensures !(exists k | 0 <= k < n :: world.response(k).Stop?) ==> LatestConfidence(world, n) == 0.0
  {
    if n > 0 && !world.response(n - 1).Stop? {
      LatestIsLast(cfg, world, n - 1);
      if k :| 0 <= k < n && world.response(k).Stop? {
        assert k < n - 1;
      }
    } else if n > 0 {
      assert !Ends(cfg, world, n - 1);
    }
  }

  /** The tools' truncated milliseconds never exceed the truncated total, so the time left for
      the model is never negative and no result is rejected for its latencies. */
  lemma LatencySplit(cfg: Config, world: World, k: nat, rootCause: string, confidence: real,
                     recommendations: seq<string>)
    requires Monotonic(world.clock)
    ensures var r := ResultOf(cfg, world, k, rootCause, confidence, recommendations);
            && 0 <= r.toolMs <= r.totalMs && r.llmMs >= 0 && r.llmMs + r.toolMs == r.totalMs
            && (Accepted(cfg, r) <==> cfg.compressionRatio > 0.0)
  {
    ToolMillisBounded(world, k);
    var last := world.clock(Readings(world, k) - 1);
    assert (last - world.clock(0)) * 1000.0 <= (world.clock(Readings(world, k)) - world.clock(0)) * 1000.0;
  }

  lemma {:induction false} ToolMillisBounded(world: World, n: nat)
    requires Monotonic(world.clock)
    ensures 0 <= ToolMillis(world, n)
    ensures ToolMillis(world, n) as real <= (world.clock(Readings(world, n) - 1) - world.clock(0)) * 1000.0
  {
    if n > 0 {
      ToolMillisBounded(world, n - 1);
      if world.response(n - 1).ToolUse? {
        CallMillisBounded(world, Readings(world, n - 1), |world.response(n - 1).calls|);
      }
    }
  }

  lemma {:induction false} CallMillisBounded(world: World, reading: nat, n: nat)
    requires Monotonic(world.clock) && reading > 0
    ensures 0 <= CallMillis(world, reading, n)
    ensures CallMillis(world, reading, n) as real
         <= (world.clock(reading + 2 * n - 1) - world.clock(reading - 1)) * 1000.0
  {
    if n > 0 {
      CallMillisBounded(world, reading, n - 1);
      assert world.clock(reading + 2 * n - 3) <= world.clock(reading + 2 * n - 2) <= world.clock(reading + 2 * n - 1);
    }
  }

  /** The run succeeds exactly when it stops at a valid final answer that is confident enough or
      answers the very last request, and the incident's compression ratio is positive. */
  lemma SuccessExactly(cfg: Config, world: World, n: nat, outcome: Outcome)
    requires Monotonic(world.clock)
    requires StopsAfter(cfg, world, n) && Reports(cfg, world, n, outcome)
    ensures outcome.Success? <==>
            && n > 0 && world.response(n - 1).Stop? && world.response(n - 1).answer.Valid?
            && (world.response(n - 1).answer.confidence >= cfg.threshold || n == Budget(cfg))
            && cfg.compressionRatio > 0.0
    ensures outcome.Success? ==>
              && outcome.result.confidence == world.response(n - 1).answer.confidence
              && |outcome.result.steps| == ToolCallCount(world, n)
  {
    if n > 0 && world.response(n - 1).Stop? && world.response(n - 1).answer.Valid? {
      var a := world.response(n - 1).answer;
      LatencySplit(cfg, world, n - 1, a.rootCause, a.confidence, a.recommendations);
      StepPerCall(cfg, world, n - 1);
    }
  }

  /** One step per tool call. */
  lemma {:induction false} StepPerCall(cfg: Config, world: World, n: nat)
    requires forall k | 0 <= k < n :: !Ends(cfg, world, k)
    ensures |StepsBefore(cfg, world, n)| == ToolCallCount(world, n)
  {
    if n > 0 {
      StepPerCall(cfg, world, n - 1);
      assert !Ends(cfg, world, n - 1);
    }
  }
}
