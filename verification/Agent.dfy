/**
 * The agent loop (crates/harness/src/agent.rs) against an arbitrary provider and
 * arbitrary tools, both of which may keep state.
 */
module Agents {
  import opened Outcomes

  datatype Block =
    | Text(text: string)
    | ToolUse(id: string, name: string, input: string)
    | ToolResult(toolUseId: string, content: string, isError: bool)
    | Media(source: string)
    | Unknown

  datatype Role = User | Assistant

  datatype Message = Message(role: Role, content: seq<Block>)

  datatype Usage = Usage(input: nat, output: nat, cacheCreation: nat, cacheRead: nat) {
    function Plus(u: Usage): Usage {
      Usage(input + u.input, output + u.output, cacheCreation + u.cacheCreation, cacheRead + u.cacheRead)
    }
  }

  const NO_USAGE: Usage := Usage(0, 0, 0, 0)

  datatype Response = Response(content: seq<Block>, stopReason: string, usage: Usage)

  datatype HarnessError = Provider(message: string) | MaxTurns(turns: nat)

  datatype RunError = RunError(source: HarnessError, usage: Usage)

  datatype TurnOutcome = TurnOutcome(text: string, messages: seq<Message>, usage: Usage, stopReason: string)

  type Transcript = seq<Message>

  /** The answer to the latest of all the requests sent so far. */
  type Provider = seq<Transcript> -> Result<Response, string>

  /** The answer to a tool call, given every call executed before it. */
  type Tools = (seq<Block>, Block) -> Result<string, string>

  // ---------------------------------------------------------------- one turn

  function Known(content: seq<Block>): seq<Block> {
    if content == [] then []
    else (if content[0] == Unknown then [] else [content[0]]) + Known(content[1..])
  }

  function ToolUses(content: seq<Block>): (uses: seq<Block>)
    ensures forall i :: 0 <= i < |uses| ==> uses[i].ToolUse?
  {
    if content == [] then []
    else (if content[0].ToolUse? then [content[0]] else []) + ToolUses(content[1..])
  }

  /** Text blocks joined by newlines. */
  function JoinedText(content: seq<Block>): string {
    JoinFrom(content, "", true)
  }

  function JoinFrom(content: seq<Block>, out: string, first: bool): string
    decreases content
  {
    if content == [] then out
    else match content[0]
      case Text(t) => JoinFrom(content[1..], if first then t else out + "\n" + t, false)
      case _ => JoinFrom(content[1..], out, first)
  }

  function Reply(use: Block, outcome: Result<string, string>): Block
    requires use.ToolUse?
  {
    match outcome
    case Ok(content) => ToolResult(use.id, content, false)
    case Err(e) => ToolResult(use.id, e, true)
  }

  /** Every tool call answered in order; `executed` grows by each call. */
  function Replies(tools: Tools, executed: seq<Block>, uses: seq<Block>): (replies: seq<Block>)
    requires forall i :: 0 <= i < |uses| ==> uses[i].ToolUse?
    ensures |replies| == |uses|
    ensures forall i :: 0 <= i < |uses| ==>
              match tools(executed + uses[..i], uses[i])
              case Ok(content) => replies[i] == ToolResult(uses[i].id, content, false)
              case Err(e) => replies[i] == ToolResult(uses[i].id, e, true)
    decreases |uses|
  {
    if uses == [] then []
    else
      var last := |uses| - 1;
      assert forall i :: 0 <= i <= last ==> uses[..last][..i] == uses[..i];
      Replies(tools, executed, uses[..last]) + [Reply(uses[last], tools(executed + uses[..last], uses[last]))]
  }

  // ---------------------------------------------------------------- the loop

  /** What a run did: requests sent, responses received, tool calls executed. */
  datatype Log = Log(requests: seq<Transcript>, responses: seq<Response>, executed: seq<Block>)

  const NOTHING: Log := Log([], [], [])

  datatype Outcome = Outcome(result: Result<TurnOutcome, RunError>, log: Log)

  datatype Agent = Agent(provider: Provider, tools: Tools, maxTurns: nat) {

    /** The run from a given point, with `turns` left. */
    function RunFrom(messages: Transcript, usage: Usage, turns: nat, log: Log): Outcome
      decreases turns
    {
      if turns == 0 then Outcome(Err(RunError(MaxTurns(maxTurns), usage)), log)
      else
        var requests := log.requests + [messages];
        match provider(requests)
        case Err(e) => Outcome(Err(RunError(HarnessError.Provider(e), usage)), log.(requests := requests))
        case Ok(response) =>
          var total := usage.Plus(response.usage);
          var content := Known(response.content);
          var uses := ToolUses(content);
          var said := messages + [Message(Assistant, content)];
          var log1 := Log(requests, log.responses + [response], log.executed + uses);
          if uses == [] then Outcome(Ok(TurnOutcome(JoinedText(content), said, total, response.stopReason)), log1)
          else RunFrom(said + [Message(User, Replies(tools, log.executed, uses))], total, turns - 1, log1)
    }

    function Whole(input: Transcript): Outcome {
      RunFrom(input, NO_USAGE, maxTurns, NOTHING)
    }

    method Run(input: Transcript) returns (result: Result<TurnOutcome, RunError>, log: Log)
      ensures Outcome(result, log) == Whole(input)
    {
      var messages := input;
      var usage := NO_USAGE;
      log := NOTHING;
      for turn := 0 to maxTurns
        invariant Whole(input) == RunFrom(messages, usage, maxTurns - turn, log)
      {
        var requests := log.requests + [messages];
        var answer := provider(requests);
        if answer.Err? {
          log := log.(requests := requests);
          result := Err(RunError(HarnessError.Provider(answer.error), usage));
          return;
        }
        var response := answer.value;
        usage := usage.Plus(response.usage);
        var content := Known(response.content);
        var uses := ToolUses(content);
        messages := messages + [Message(Assistant, content)];
        if uses == [] {
          log := Log(requests, log.responses + [response], log.executed + uses);
          result := Ok(TurnOutcome(JoinedText(content), messages, usage, response.stopReason));
          return;
        }
        var results := ExecuteAll(log.executed, uses);
        log := Log(requests, log.responses + [response], log.executed + uses);
        messages := messages + [Message(User, results)];
      }
      result := Err(RunError(MaxTurns(maxTurns), usage));
    }

    method ExecuteAll(executed: seq<Block>, uses: seq<Block>) returns (results: seq<Block>)
      requires forall i :: 0 <= i < |uses| ==> uses[i].ToolUse?
      ensures results == Replies(tools, executed, uses)
    {
      results := [];
      for i := 0 to |uses|
        invariant results == Replies(tools, executed, uses[..i])
      {
        assert uses[..i + 1][..i] == uses[..i];
        results := results + [Reply(uses[i], tools(executed + uses[..i], uses[i]))];
      }
      assert uses[..|uses|] == uses;
    }
  }

  // ---------------------------------------------------------------- what every run keeps

  function TotalUsage(responses: seq<Response>): Usage {
    if responses == [] then NO_USAGE else TotalUsage(responses[..|responses| - 1]).Plus(responses[|responses| - 1].usage)
  }

  /** Positions in a message's content, in order: those of the blocks meant, and no others. */
  ghost predicate PickedAt(content: seq<Block>, at: seq<nat>, meant: Block -> bool) {
    && (forall i :: 0 <= i < |at| ==> at[i] < |content| && meant(content[at[i]]))
    && (forall i, j :: 0 <= i < j < |at| ==> at[i] < at[j])
    && (forall p :: 0 <= p < |content| && meant(content[p]) ==> p in at)
  }

  function IsCall(b: Block): bool {
    b.ToolUse?
  }

  function IsKnown(b: Block): bool {
    !b.Unknown?
  }

  /** A message that calls no tool. */
  predicate NoCalls(content: seq<Block>) {
    forall p :: 0 <= p < |content| ==> !content[p].ToolUse?
  }

  ghost predicate AnswersAt(said: Message, replied: Message, at: seq<nat>) {
    && PickedAt(said.content, at, IsCall) && |replied.content| == |at|
    && forall i :: 0 <= i < |at| ==>
         replied.content[i].ToolResult? && replied.content[i].toolUseId == said.content[at[i]].id
  }

  /** The calls of an assistant message, every one of them, answered in order under their ids. */
  ghost predicate Answers(said: Message, replied: Message) {
    && said.role == Assistant && replied.role == User && !NoCalls(said.content)
    && exists at :: AnswersAt(said, replied, at)
  }

  /** `at` shifted past one more block in front. */
  function Shifted(at: seq<nat>): (r: seq<nat>)
    ensures |r| == |at| && forall i :: 0 <= i < |at| ==> r[i] == at[i] + 1
  {
    if at == [] then [] else [at[0] + 1] + Shifted(at[1..])
  }

  /** The same for the blocks after the first. */
  ghost predicate LaterAt(content: seq<Block>, later: seq<nat>, meant: Block -> bool) {
    && (forall i :: 0 <= i < |later| ==> 0 < later[i] < |content| && meant(content[later[i]]))
    && (forall i, j :: 0 <= i < j < |later| ==> later[i] < later[j])
    && (forall p :: 0 < p < |content| && meant(content[p]) ==> p in later)
  }

  lemma ShiftedIsLater(content: seq<Block>, rest: seq<nat>, meant: Block -> bool)
    requires content != [] && PickedAt(content[1..], rest, meant)
    ensures LaterAt(content, Shifted(rest), meant)
  {
    var later := Shifted(rest);
    forall i | 0 <= i < |later|
      ensures 0 < later[i] < |content| && meant(content[later[i]])
    {
      assert content[later[i]] == content[1..][rest[i]];
    }
    forall p | 0 < p < |content| && meant(content[p])
      ensures p in later
    {
      assert content[1..][p - 1] == content[p];
      var i :| 0 <= i < |rest| && rest[i] == p - 1;
      assert later[i] == p;
    }
  }

  lemma WithFront(content: seq<Block>, later: seq<nat>, meant: Block -> bool)
    requires content != [] && meant(content[0]) && LaterAt(content, later, meant)
    ensures PickedAt(content, [0] + later, meant)
  {
    var at := [0] + later;
    assert at[0] == 0 && forall i :: 0 < i < |at| ==> at[i] == later[i - 1];
    forall i, j | 0 <= i < j < |at|
      ensures at[i] < at[j]
    {
      assert at[j] == later[j - 1];
      assert i > 0 ==> at[i] == later[i - 1];
    }
    assert forall p :: p in later ==> p in at;
    assert 0 in at;
  }

  lemma WithoutFront(content: seq<Block>, later: seq<nat>, meant: Block -> bool)
    requires content != [] && !meant(content[0]) && LaterAt(content, later, meant)
    ensures PickedAt(content, later, meant)
  {
  }

  /** One more block in front. */
  lemma PickedCons(content: seq<Block>, rest: seq<nat>, meant: Block -> bool) returns (at: seq<nat>)
    requires content != [] && PickedAt(content[1..], rest, meant)
    ensures at == (if meant(content[0]) then [0] else []) + Shifted(rest) && PickedAt(content, at, meant)
  {
    hide PickedAt, LaterAt, Shifted;
    var later := Shifted(rest);
    ShiftedIsLater(content, rest, meant);
    if meant(content[0]) {
      at := [0] + later;
      WithFront(content, later, meant);
    } else {
      at := later;
      WithoutFront(content, later, meant);
      assert [] + later == later;
    }
  }

  /** What is picked out, block by block. */
  ghost predicate Picks(content: seq<Block>, at: seq<nat>, picked: seq<Block>) {
    |picked| == |at| && forall i :: 0 <= i < |at| ==> at[i] < |content| && picked[i] == content[at[i]]
  }

  lemma PicksCons(content: seq<Block>, rest: seq<nat>, picked: seq<Block>, first: bool)
    requires content != [] && Picks(content[1..], rest, picked)
    ensures Picks(content, (if first then [0] else []) + Shifted(rest), (if first then [content[0]] else []) + picked)
  {
    var later := Shifted(rest);
    assert forall i :: 0 <= i < |rest| ==> content[later[i]] == content[1..][rest[i]];
  }

  /** The calls picked out of a message are the blocks at exactly the positions of its tool calls. */
  lemma {:induction false} ToolUsesAreAllCalls(content: seq<Block>) returns (at: seq<nat>)
    ensures PickedAt(content, at, IsCall) && Picks(content, at, ToolUses(content))
  {
    if content == [] {
      at := [];
    } else {
      hide PickedAt, Picks;
      var rest := ToolUsesAreAllCalls(content[1..]);
      at := PickedCons(content, rest, IsCall);
      PicksCons(content, rest, ToolUses(content[1..]), IsCall(content[0]));
    }
  }

  lemma NoCallsIff(content: seq<Block>)
    ensures ToolUses(content) == [] <==> NoCalls(content)
  {
    var at := ToolUsesAreAllCalls(content);
    if at != [] {
      assert IsCall(content[at[0]]);
    }
  }

  /** Only unknown blocks are dropped from a response; the others keep their order. */
  lemma {:induction false} KnownDropsOnlyUnknown(content: seq<Block>) returns (at: seq<nat>)
    ensures PickedAt(content, at, IsKnown) && Picks(content, at, Known(content))
  {
    if content == [] {
      at := [];
    } else {
      hide PickedAt, Picks;
      var rest := KnownDropsOnlyUnknown(content[1..]);
      at := PickedCons(content, rest, IsKnown);
      PicksCons(content, rest, Known(content[1..]), IsKnown(content[0]));
    }
  }

  /** The text of a turn, block by block: each text after the first stands on a new line, and nothing else shows. */
  lemma {:induction false} TextGrows(content: seq<Block>, block: Block)
    ensures JoinedText(content + [block])
            == match block
               case Text(t) => if HasText(content) then JoinedText(content) + "\n" + t else t
               case _ => JoinedText(content)
    ensures !HasText(content) ==> JoinedText(content) == ""
  {
    JoinGrows(content, block, "", true);
  }

  predicate HasText(content: seq<Block>) {
    exists p :: 0 <= p < |content| && content[p].Text?
  }

  lemma TextAhead(content: seq<Block>)
    requires content != []
    ensures HasText(content) <==> content[0].Text? || HasText(content[1..])
  {
    if HasText(content) {
      var p :| 0 <= p < |content| && content[p].Text?;
      assert p == 0 || content[1..][p - 1].Text?;
    }
    if HasText(content[1..]) {
      var p :| 0 <= p < |content[1..]| && content[1..][p].Text?;
      assert content[p + 1].Text?;
    }
  }

  lemma {:induction false} JoinGrows(content: seq<Block>, block: Block, out: string, first: bool)
    ensures JoinFrom(content + [block], out, first)
            == match block
               case Text(t) =>
                 if HasText(content) || !first then JoinFrom(content, out, first) + "\n" + t else t
               case _ => JoinFrom(content, out, first)
    ensures !HasText(content) ==> JoinFrom(content, out, first) == out
    decreases |content|
  {
    var more := content + [block];
    if content == [] {
      assert more == [block] && more[1..] == [];
    } else {
      assert more[0] == content[0] && more[1..] == content[1..] + [block];
      TextAhead(content);
      hide HasText;
      match content[0] {
        case Text(t) => JoinGrows(content[1..], block, if first then t else out + "\n" + t, false);
        case _ => JoinGrows(content[1..], block, out, first);
      }
    }
  }

  /** Tool-using assistant messages, each followed at once by its answers. */
  ghost predicate AllAnswered(added: seq<Message>) {
    added == []
    || (|added| >= 2 && Answers(added[|added| - 2], added[|added| - 1]) && AllAnswered(added[..|added| - 2]))
  }

  /** The requests of a run: all extend the input by answered turns, each strictly extends the one before. */
  ghost predicate GoodRequests(input: Transcript, requests: seq<Transcript>) {
    && (forall i :: 0 <= i < |requests| ==> input <= requests[i] && AllAnswered(requests[i][|input|..]))
    && (forall i, j :: 0 <= i < j < |requests| ==> requests[i] < requests[j])
  }

  /** Responses match requests: each is what the provider said to the requests up to it, and asked for tools. */
  predicate GoodResponses(a: Agent, log: Log) {
    && |log.responses| <= |log.requests|
    && (forall i :: 0 <= i < |log.responses| ==> a.provider(log.requests[..i + 1]) == Ok(log.responses[i]))
  }

  /** Some block of the response calls a tool. */
  predicate AskedForTools(response: Response) {
    !NoCalls(response.content)
  }

  /** Dropping unknown blocks drops no call. */
  lemma KnownKeepsCalls(response: Response)
    ensures NoCalls(Known(response.content)) <==> NoCalls(response.content)
  {
    var content := response.content;
    var at := KnownDropsOnlyUnknown(content);
    if p :| 0 <= p < |content| && content[p].ToolUse? {
      assert IsKnown(content[p]);
      var i :| 0 <= i < |at| && at[i] == p;
      assert Known(content)[i].ToolUse?;
    }
  }

  /** All the calls of all the responses, in order. */
  function AllCalls(responses: seq<Response>): seq<Block> {
    if responses == [] then []
    else AllCalls(responses[..|responses| - 1]) + ToolUses(Known(responses[|responses| - 1].content))
  }

  lemma CallsSnoc(responses: seq<Response>, r: Response)
    ensures AllCalls(responses + [r]) == AllCalls(responses) + ToolUses(Known(r.content))
  {
    assert (responses + [r])[..|responses|] == responses;
  }

  function Sum(part: Usage -> nat, responses: seq<Response>): nat {
    if responses == [] then 0 else part(responses[0].usage) + Sum(part, responses[1..])
  }

  lemma {:induction false} SumSnoc(part: Usage -> nat, responses: seq<Response>, r: Response)
    ensures Sum(part, responses + [r]) == Sum(part, responses) + part(r.usage)
  {
    if responses == [] {
      assert responses + [r] == [r] && [r][1..] == [];
    } else {
      assert (responses + [r])[1..] == responses[1..] + [r];
      SumSnoc(part, responses[1..], r);
    }
  }

  /** Each of the four counts adds up on its own. */
  lemma {:induction false} TotalIsPartwise(responses: seq<Response>)
    ensures TotalUsage(responses).input == Sum((u: Usage) => u.input, responses)
    ensures TotalUsage(responses).output == Sum((u: Usage) => u.output, responses)
    ensures TotalUsage(responses).cacheCreation == Sum((u: Usage) => u.cacheCreation, responses)
    ensures TotalUsage(responses).cacheRead == Sum((u: Usage) => u.cacheRead, responses)
  {
    if responses != [] {
      var init, last := responses[..|responses| - 1], responses[|responses| - 1];
      TotalIsPartwise(init);
      assert responses == init + [last];
      SumSnoc((u: Usage) => u.input, init, last);
      SumSnoc((u: Usage) => u.output, init, last);
      SumSnoc((u: Usage) => u.cacheCreation, init, last);
      SumSnoc((u: Usage) => u.cacheRead, init, last);
    }
  }

  /** A run that has completed some turns and is about to send `messages`. */
  ghost predicate Running(a: Agent, input: Transcript, messages: Transcript, usage: Usage, log: Log) {
    && GoodRequests(input, log.requests) && GoodResponses(a, log)
    && |log.requests| == |log.responses|
    && input <= messages && AllAnswered(messages[|input|..])
    && (forall i :: 0 <= i < |log.requests| ==> log.requests[i] < messages)
    && (forall i :: 0 <= i < |log.responses| ==> AskedForTools(log.responses[i]))
    && usage == TotalUsage(log.responses) && log.executed == AllCalls(log.responses)
  }

  lemma TurnIsAnswered(tools: Tools, executed: seq<Block>, content: seq<Block>)
    requires ToolUses(content) != []
    ensures Answers(Message(Assistant, content), Message(User, Replies(tools, executed, ToolUses(content))))
  {
    NoCallsIff(content);
    var at := ToolUsesAreAllCalls(content);
    assert AnswersAt(Message(Assistant, content), Message(User, Replies(tools, executed, ToolUses(content))), at);
  }

  lemma AnsweredSnoc(added: seq<Message>, said: Message, replied: Message)
    requires AllAnswered(added) && Answers(said, replied)
    ensures AllAnswered(added + [said] + [replied])
  {
    hide Answers;
    var more := added + [said] + [replied];
    assert more[..|more| - 2] == added;
  }

  lemma TotalSnoc(responses: seq<Response>, r: Response)
    ensures TotalUsage(responses + [r]) == TotalUsage(responses).Plus(r.usage)
  {
    assert (responses + [r])[..|responses|] == responses;
  }

  lemma PrefixesStay(requests: seq<Transcript>, messages: Transcript)
    ensures (requests + [messages])[..|requests| + 1] == requests + [messages]
    ensures forall k :: 0 <= k <= |requests| ==> (requests + [messages])[..k] == requests[..k]
  {
  }

  lemma ProviderAnswered(a: Agent, log: Log, messages: Transcript, response: Response)
    requires GoodResponses(a, log) && |log.requests| == |log.responses|
    requires a.provider(log.requests + [messages]) == Ok(response)
    ensures GoodResponses(a, Log(log.requests + [messages], log.responses + [response], log.executed))
  {
    PrefixesStay(log.requests, messages);
  }

  /** One completed turn keeps all of it. */
  lemma TurnKeepsRunning(a: Agent, input: Transcript, messages: Transcript, usage: Usage, log: Log, response: Response)
    requires Running(a, input, messages, usage, log)
    requires a.provider(log.requests + [messages]) == Ok(response) && AskedForTools(response)
    ensures var content := Known(response.content);
            var next := messages + [Message(Assistant, content)] + [Message(User, Replies(a.tools, log.executed, ToolUses(content)))];
            Running(a, input, next, usage.Plus(response.usage),
                    Log(log.requests + [messages], log.responses + [response], log.executed + ToolUses(content)))
  {
    hide Known, ToolUses, Replies, AllAnswered, Answers, TotalUsage, AskedForTools;
    var content := Known(response.content);
    var said := Message(Assistant, content);
    var replied := Message(User, Replies(a.tools, log.executed, ToolUses(content)));
    UsesAsked(response);
    TurnIsAnswered(a.tools, log.executed, content);
    AnsweredSnoc(messages[|input|..], said, replied);
    var next := messages + [said] + [replied];
    assert next[|input|..] == messages[|input|..] + [said] + [replied];
    ProviderAnswered(a, log, messages, response);
    TotalSnoc(log.responses, response);
    CallsSnoc(log.responses, response);
  }

  /** What holds of a finished run. */
  ghost predicate Finished(a: Agent, input: Transcript, o: Outcome) {
    var n := |o.log.responses|;
    && GoodRequests(input, o.log.requests) && GoodResponses(a, o.log) && o.log.executed == AllCalls(o.log.responses)
    && match o.result
       case Ok(t) =>
         && |o.log.requests| == n && n > 0
         && t.messages == o.log.requests[n - 1] + [Message(Assistant, Known(o.log.responses[n - 1].content))]
         && !AskedForTools(o.log.responses[n - 1]) && NoCalls(t.messages[|t.messages| - 1].content)
         && (forall i :: 0 <= i < n - 1 ==> AskedForTools(o.log.responses[i]))
         && t.text == JoinedText(Known(o.log.responses[n - 1].content))
         && t.usage == TotalUsage(o.log.responses) && t.stopReason == o.log.responses[n - 1].stopReason
       case Err(RunError(source, usage)) =>
         && usage == TotalUsage(o.log.responses)
         && (forall i :: 0 <= i < n ==> AskedForTools(o.log.responses[i]))
         && match source
            case MaxTurns(k) => k == a.maxTurns && |o.log.requests| == n
            case Provider(e) => |o.log.requests| == n + 1 && a.provider(o.log.requests) == Err(e)
  }

  lemma {:induction false} RunFromFinishes(a: Agent, input: Transcript, messages: Transcript, usage: Usage, turns: nat, log: Log)
    requires Running(a, input, messages, usage, log)
    ensures var o := a.RunFrom(messages, usage, turns, log);
            && Finished(a, input, o)
            && |o.log.requests| <= |log.requests| + turns
            && (o.result.Err? && o.result.error.source.MaxTurns? ==> |o.log.requests| == |log.requests| + turns)
    decreases turns
  {
    hide Known, ToolUses, Replies, AllAnswered, JoinedText, Running, Finished, AskedForTools, TotalUsage;
    if turns == 0 {
      OutOfTurns(a, input, messages, usage, log);
    } else {
      var requests := log.requests + [messages];
      match a.provider(requests) {
        case Err(e) => ProviderFails(a, input, messages, usage, log, e);
        case Ok(response) =>
          UsesAsked(response);
          if AskedForTools(response) {
            TurnKeepsRunning(a, input, messages, usage, log, response);
            var content := Known(response.content);
            var next := messages + [Message(Assistant, content)] + [Message(User, Replies(a.tools, log.executed, ToolUses(content)))];
            RunFromFinishes(a, input, next, usage.Plus(response.usage), turns - 1,
                            Log(requests, log.responses + [response], log.executed + ToolUses(content)));
          } else {
            Answered(a, input, messages, usage, log, response);
          }
      }
    }
  }

  lemma UsesAsked(response: Response)
    ensures AskedForTools(response) <==> ToolUses(Known(response.content)) != []
  {
    KnownKeepsCalls(response);
    NoCallsIff(Known(response.content));
  }

  lemma OutOfTurns(a: Agent, input: Transcript, messages: Transcript, usage: Usage, log: Log)
    requires Running(a, input, messages, usage, log)
    ensures Finished(a, input, Outcome(Err(RunError(MaxTurns(a.maxTurns), usage)), log))
  {
    hide AllAnswered, TotalUsage, AskedForTools;
  }

  lemma RequestSent(a: Agent, input: Transcript, messages: Transcript, usage: Usage, log: Log)
    requires Running(a, input, messages, usage, log)
    ensures GoodRequests(input, log.requests + [messages])
  {
    hide AllAnswered, TotalUsage, AskedForTools;
  }

  lemma ProviderFails(a: Agent, input: Transcript, messages: Transcript, usage: Usage, log: Log, e: string)
    requires Running(a, input, messages, usage, log) && a.provider(log.requests + [messages]) == Err(e)
    ensures Finished(a, input, Outcome(Err(RunError(HarnessError.Provider(e), usage)), log.(requests := log.requests + [messages])))
  {
    RequestSent(a, input, messages, usage, log);
    PrefixesStay(log.requests, messages);
    hide AllAnswered, TotalUsage, AskedForTools, GoodRequests;
  }

  lemma Answered(a: Agent, input: Transcript, messages: Transcript, usage: Usage, log: Log, response: Response)
    requires Running(a, input, messages, usage, log)
    requires a.provider(log.requests + [messages]) == Ok(response) && !AskedForTools(response)
    ensures var content := Known(response.content);
            Finished(a, input,
                     Outcome(Ok(TurnOutcome(JoinedText(content), messages + [Message(Assistant, content)],
                                            usage.Plus(response.usage), response.stopReason)),
                             Log(log.requests + [messages], log.responses + [response], log.executed + ToolUses(content))))
  {
    RequestSent(a, input, messages, usage, log);
    ProviderAnswered(a, log, messages, response);
    TotalSnoc(log.responses, response);
    CallsSnoc(log.responses, response);
    KnownKeepsCalls(response);
    assert AskedForTools(response) <==> !NoCalls(response.content);
    hide Known, ToolUses, JoinedText, AllAnswered, TotalUsage, AllCalls, AskedForTools, GoodRequests, NoCalls;
  }

  /**
   * Every run, whatever the provider and the tools do: the input is a prefix of every
   * request and each request strictly extends the last; all tool calls are answered in
   * order under their ids; there are at most `maxTurns` calls; and the usage returned, on
   * success and on error, is the sum over the completed calls.
   */
  lemma EveryRunIsWellFormed(a: Agent, input: Transcript)
    ensures var o := a.Whole(input);
            && Finished(a, input, o)
            && |o.log.requests| <= a.maxTurns
            && (o.result.Err? && o.result.error.source.MaxTurns? ==> |o.log.requests| == a.maxTurns)
  {
    assert input[|input|..] == [];
    RunFromFinishes(a, input, input, NO_USAGE, a.maxTurns, NOTHING);
  }
}
