/**
 * Step 1 of the consolidation pipeline: the model is asked for the memories a conversation
 * holds, and may instead ask for the calendar of a month. The exchange is a bounded loop:
 * every model reply is appended to the conversation, a final result ends it, a calendar
 * request is answered with a user message and counted, and any other function name raises.
 * The loop makes at most `MaxRecursiveCalls + 1` (three) model calls; after the third answered
 * request it gives up without memories.
 */
module Generation {
  import opened Wrappers
  import opened Text
  import ChatUtils
  import MonthCalendar

  datatype Message = Message(role: string, content: string)

  /** `ModelResponseGeneration`: either the final memories or a function call. */
  datatype Generation =
    | FinalResult(memories: seq<string>)
    | FunctionCall(name: string, arguments: map<string, int>)

  /**
   * The streamed completion, concatenated, for a conversation, and the validator that turns
   * the JSON block of a reply into a `Generation`.
   */
  datatype Model = Model(complete: seq<Message> -> string, decode: string -> Result<Generation>)

  /**
   * How the loop ended: the memories of a final result (`None` when the calls ran out), the
   * conversation as it then stands and the number of replies the model gave.
   */
  datatype Outcome = Outcome(memories: Option<seq<string>>, messages: seq<Message>, modelCalls: nat)

  const MaxRecursiveCalls: nat := 2
  const CalendarTool := "get_calendar_for_any_month"

  const Months: seq<string> := ["January", "February", "March", "April", "May", "June",
    "July", "August", "September", "October", "November", "December"]

  /** The user message that hands a calendar back to the model. */
  function CalendarMessage(month: int, year: int, calendar: string): string
    requires 1 <= month <= 12
  {
    "Function Result:\nBelow is the calendar for the month of " + Months[month - 1]
      + " and year " + IntToString(year) + " in CSV format:\n" + calendar
  }

  /**
   * The answer to a function call: only the calendar tool is known; its two arguments are
   * looked up (month first), and the calendar's own error propagates.
   */
  function ToolResult(name: string, arguments: map<string, int>): Result<string> {
    if name != CalendarTool then Err(ValueError("Unknown function: " + name))
    else if "month" !in arguments || "year" !in arguments then Err(KeyError)
    else
      var month, year := arguments["month"], arguments["year"];
      match MonthCalendar.CalendarText(month, year)
      case Err(e) => Err(e)
      case Ok(calendar) =>
        assert 1 <= month <= 12;
        Ok(CalendarMessage(month, year, calendar))
  }

  /**
   * What one turn of the loop consults: the model, the reader of its replies and the tool.
   * The loop itself is stated over any such triple; `AgentOf` gives the one the page uses.
   */
  datatype Agent = Agent(complete: seq<Message> -> string,
                         parse: string -> Result<(string, Generation)>,
                         tool: (string, map<string, int>) -> Result<string>)

  function Parser(m: Model): string -> Result<(string, Generation)> {
    reply => ChatUtils.ProcessThinkingResponse(reply, m.decode)
  }

  function AgentOf(m: Model): Agent {
    Agent(m.complete, Parser(m), ToolResult)
  }

  /** The loop from the point where `callCount` requests have been answered. */
  function Run(a: Agent, messages: seq<Message>, callCount: nat): Result<Outcome>
    decreases MaxRecursiveCalls + 1 - callCount
  {
    if callCount > MaxRecursiveCalls then Ok(Outcome(None, messages, callCount))
    else
      var reply := a.complete(messages);
      var history := messages + [Message("assistant", reply)];
      match a.parse(reply)
      case Err(e) => Err(e)
      case Ok(parsed) =>
        match parsed.1
        case FinalResult(memories) => Ok(Outcome(Some(memories), history, callCount + 1))
        case FunctionCall(name, arguments) =>
          match a.tool(name, arguments)
          case Err(e) => Err(e)
          case Ok(content) => Run(a, history + [Message("user", content)], callCount + 1)
  }

  /** The exchange as `show_memory_extraction` starts it: one user message with the prompt. */
  function Generate(a: Agent, prompt: string): Result<Outcome> {
    Run(a, [Message("user", prompt)], 0)
  }

  /** The dispatch on the requested function's name inside the loop. */
  method CallTool(name: string, arguments: map<string, int>) returns (r: Result<string>)
    ensures r == ToolResult(name, arguments)
  {
    if name == CalendarTool {
      if "month" !in arguments || "year" !in arguments {
        return Err(KeyError);
      }
      var month := arguments["month"];
      var year := arguments["year"];
      var result := MonthCalendar.GetCalendarForAnyMonth(month, year);
      if result.Err? {
        return Err(result.error);
      }
      return Ok(CalendarMessage(month, year, result.value));
    } else {
      return Err(ValueError("Unknown function: " + name));
    }
  }

  /** The generation loop of `show_memory_extraction`. */
  method GenerateMemories(m: Model, prompt: string) returns (r: Result<Outcome>)
    ensures r == Generate(AgentOf(m), prompt)
  {
    var callCount: nat := 0;
    var messages := [Message("user", prompt)];
    while callCount <= MaxRecursiveCalls
      invariant callCount <= MaxRecursiveCalls + 1
      invariant Run(AgentOf(m), messages, callCount) == Generate(AgentOf(m), prompt)
      decreases MaxRecursiveCalls + 1 - callCount
    {
      var reply := m.complete(messages);
      var parsed := ChatUtils.ProcessThinkingResponse(reply, m.decode);
      assert parsed == AgentOf(m).parse(reply);
      if parsed.Err? {
        Turn(AgentOf(m), messages, callCount);
        return Err(parsed.error);
      }
      var g := parsed.value.1;
      if g.FinalResult? {
        Turn(AgentOf(m), messages, callCount);
        return Ok(Outcome(Some(g.memories), messages + [Message("assistant", reply)], callCount + 1));
      }
      var content := CallTool(g.name, g.arguments);
      assert content == AgentOf(m).tool(g.name, g.arguments);
      if content.Err? {
        Turn(AgentOf(m), messages, callCount);
        return Err(content.error);
      }
      Continue(AgentOf(m), messages, callCount, content.value);
      messages := messages + [Message("assistant", reply), Message("user", content.value)];
      callCount := callCount + 1;
    }
    return Ok(Outcome(None, messages, callCount));
  }

  /** One turn of the loop, for any agent: how the reply decides what happens next. */
  lemma Turn(a: Agent, messages: seq<Message>, callCount: nat)
    requires callCount <= MaxRecursiveCalls
    ensures var reply := a.complete(messages);
            var history := messages + [Message("assistant", reply)];
            var parsed := a.parse(reply);
            (parsed.Err? ==> Run(a, messages, callCount) == Err(parsed.error))
            && (parsed.Ok? && parsed.value.1.FinalResult? ==>
                  Run(a, messages, callCount)
                  == Ok(Outcome(Some(parsed.value.1.memories), history, callCount + 1)))
            && (parsed.Ok? && parsed.value.1.FunctionCall? ==>
                  var t := a.tool(parsed.value.1.name, parsed.value.1.arguments);
                  (t.Err? ==> Run(a, messages, callCount) == Err(t.error))
                  && (t.Ok? ==>
                        Run(a, messages, callCount)
                        == Run(a, history + [Message("user", t.value)], callCount + 1)))
  {
  }

  /** A turn that ends in an answered request hands the loop on to the next turn. */
  lemma Continue(a: Agent, messages: seq<Message>, callCount: nat, content: string)
    requires callCount <= MaxRecursiveCalls
    requires a.parse(a.complete(messages)).Ok? && a.parse(a.complete(messages)).value.1.FunctionCall?
    requires a.tool(a.parse(a.complete(messages)).value.1.name, a.parse(a.complete(messages)).value.1.arguments)
             == Ok(content)
    ensures Run(a, messages, callCount)
            == Run(a, messages + [Message("assistant", a.complete(messages)), Message("user", content)],
                   callCount + 1)
  {
    assert messages + [Message("assistant", a.complete(messages))] + [Message("user", content)]
           == messages + [Message("assistant", a.complete(messages)), Message("user", content)];
  }

  // ---------------------------------------------------------------------------------------
  // What the loop guarantees

  /** User and assistant take turns, the user first, and every reply answers the history before it. */
  ghost predicate Conversation(complete: seq<Message> -> string, messages: seq<Message>) {
    |messages| % 2 == 1
    && (forall i :: 0 <= i < |messages| && i % 2 == 0 ==> messages[i].role == "user")
    && (forall i :: 0 <= i < |messages| && i % 2 == 1 ==>
          messages[i] == Message("assistant", complete(messages[..i])))
  }

  /** An answered request keeps the turns: the model's reply, then the user's answer. */
  lemma ConversationExtends(complete: seq<Message> -> string, messages: seq<Message>, content: string)
    requires Conversation(complete, messages)
    ensures Conversation(complete, messages + [Message("assistant", complete(messages)), Message("user", content)])
  {
    var next := messages + [Message("assistant", complete(messages)), Message("user", content)];
    forall i | 0 <= i < |next| && i % 2 == 1
      ensures next[i] == Message("assistant", complete(next[..i]))
    {
      if i < |messages| {
        assert next[..i] == messages[..i];
      } else {
        assert next[..i] == messages;
      }
    }
  }

  /**
   * What a finished loop looks like from a well-formed conversation with `callCount`
   * answered requests: at most `MaxRecursiveCalls + 1` model calls in all, at least one more
   * than it had, and the conversation only extended: by one assistant-user pair per answered
   * request and a closing reply when it ends with memories. Without memories, the calls ran
   * out.
   */
  ghost predicate Shaped(a: Agent, messages: seq<Message>, callCount: nat, out: Outcome) {
    callCount <= out.modelCalls <= MaxRecursiveCalls + 1
    && (callCount <= MaxRecursiveCalls ==> callCount < out.modelCalls)
    && messages <= out.messages
    && (out.memories.None? ==>
          out.modelCalls == MaxRecursiveCalls + 1 && |out.messages| == 2 * out.modelCalls + 1
          && Conversation(a.complete, out.messages))
    && (out.memories.Some? ==>
          |out.messages| == 2 * out.modelCalls
          && Conversation(a.complete, out.messages[..|out.messages| - 1])
          && out.messages[|out.messages| - 1]
             == Message("assistant", a.complete(out.messages[..|out.messages| - 1])))
  }

  /** Every successful run of the loop from a well-formed conversation is `Shaped`. */
  lemma {:induction false} RunShape(a: Agent, messages: seq<Message>, callCount: nat)
    requires callCount <= MaxRecursiveCalls + 1
    requires Conversation(a.complete, messages) && |messages| == 2 * callCount + 1
    ensures Run(a, messages, callCount).Ok? ==> Shaped(a, messages, callCount, Run(a, messages, callCount).value)
    decreases MaxRecursiveCalls + 1 - callCount
  {
    if callCount <= MaxRecursiveCalls {
      Turn(a, messages, callCount);
      var reply := a.complete(messages);
      var history := messages + [Message("assistant", reply)];
      var parsed := a.parse(reply);
      if parsed.Ok? && parsed.value.1.FunctionCall? {
        var g := parsed.value.1;
        var t := a.tool(g.name, g.arguments);
        if t.Ok? {
          var next := history + [Message("user", t.value)];
          ConversationExtends(a.complete, messages, t.value);
          assert next == messages + [Message("assistant", reply), Message("user", t.value)];
          RunShape(a, next, callCount + 1);
          if Run(a, next, callCount + 1).Ok? {
            ShapedEarlier(a, messages, next, callCount, Run(a, next, callCount + 1).value);
          }
        }
      } else if parsed.Ok? {
        assert history[..|history| - 1] == messages;
      }
    }
  }

  /** A shape reached from a later point of the same conversation holds from an earlier one. */
  lemma ShapedEarlier(a: Agent, messages: seq<Message>, next: seq<Message>, callCount: nat, out: Outcome)
    requires messages <= next && Shaped(a, next, callCount + 1, out)
    ensures Shaped(a, messages, callCount, out)
  {
    assert messages == next[..|messages|] == out.messages[..|messages|];
  }

  /**
   * Generation makes one to three model calls, gives up only after the third, keeps the
   * prompt as the first message, and ends a successful run on the model's own reply.
   */
  lemma GenerateCalls(a: Agent, prompt: string)
    ensures var r := Generate(a, prompt);
            r.Ok? ==>
              1 <= r.value.modelCalls <= MaxRecursiveCalls + 1
              && (r.value.memories.None? ==> r.value.modelCalls == MaxRecursiveCalls + 1)
              && [Message("user", prompt)] <= r.value.messages
              && (r.value.memories.Some? ==>
                    |r.value.messages| >= 2 && r.value.messages[|r.value.messages| - 1].role == "assistant")
  {
    var start := [Message("user", prompt)];
    RunShape(a, start, 0);
    assert start[0] == Message("user", prompt);
  }

  /** The first final result ends the loop with its memories, whatever calls were left. */
  lemma FinalResultStops(m: Model, messages: seq<Message>, callCount: nat, thinking: string,
                         memories: seq<string>)
    requires callCount <= MaxRecursiveCalls
    requires ChatUtils.ProcessThinkingResponse(m.complete(messages), m.decode)
             == Ok((thinking, FinalResult(memories)))
    ensures Run(AgentOf(m), messages, callCount)
            == Ok(Outcome(Some(memories), messages + [Message("assistant", m.complete(messages))],
                          callCount + 1))
  {
  }

  /** A request for any function other than the calendar raises `ValueError` with its name. */
  lemma UnknownFunctionRaises(m: Model, messages: seq<Message>, callCount: nat, thinking: string,
                              name: string, arguments: map<string, int>)
    requires callCount <= MaxRecursiveCalls && name != CalendarTool
    requires ChatUtils.ProcessThinkingResponse(m.complete(messages), m.decode)
             == Ok((thinking, FunctionCall(name, arguments)))
    ensures Run(AgentOf(m), messages, callCount) == Err(ValueError("Unknown function: " + name))
  {
  }

  /**
   * A calendar request is answered with the calendar of that month, named in words, as the
   * next user message; a missing argument raises `KeyError` and a month outside 1..12 the
   * calendar's `ValueError`.
   */
  lemma CalendarAnswered(month: int, year: int, arguments: map<string, int>)
    ensures "month" !in arguments || "year" !in arguments ==> ToolResult(CalendarTool, arguments) == Err(KeyError)
    ensures "month" in arguments && "year" in arguments ==>
              var month, year := arguments["month"], arguments["year"];
              (!(1 <= month <= 12) ==>
                 ToolResult(CalendarTool, arguments)
                 == Err(ValueError("bad month number " + IntToString(month) + "; must be 1-12")))
              && (1 <= month <= 12 ==>
                    ToolResult(CalendarTool, arguments)
                    == Ok("Function Result:\nBelow is the calendar for the month of " + Months[month - 1]
                          + " and year " + IntToString(year) + " in CSV format:\n"
                          + MonthCalendar.CalendarText(month, year).value))
  {
    if "month" in arguments && "year" in arguments {
      MonthCalendar.CalendarTextShape(arguments["year"], arguments["month"]);
    }
  }
}
