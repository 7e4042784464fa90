/** The record of a sub-agent's run: pairing tool results with their calls
    (crates/chat/src/agent_runner.rs) and the bounded trajectory
    (crates/chat/src/trajectory.rs). */
module AgentRun {
  import opened Wrappers

  const ARGS_CHARS: nat := 400
  const RESULT_CHARS: nat := 600
  const ANSWER_CHARS: nat := 4000
  const MAX_STEPS: nat := 40

  /** A call's arguments: `text` is their compact JSON, `action` their `action` string. */
  datatype Args = Null | Args(text: string, action: Option<string>)

  datatype Event =
    | Message(content: string)
    | Error(message: string)
    | Done
    | ToolCall(tool: string, args: Args)
    | ToolResult(tool: string, success: bool, preview: string, modelSaw: Option<nat>)
    | Thinking(content: string)
    | Token

  datatype Step = Step(tool: string, args: string, ok: bool, stubbed: bool, result: string)

  /** A receipt: what was called, how it went, and what its result says of tests and lints. */
  datatype Invocation = Invocation(
    tool: string, success: bool, testsPassed: Option<nat>, clippyClean: Option<bool>,
    action: Option<string>, stubbed: bool)

  /** How a tool's result is read, and what the preview of a stub starts with. */
  datatype Reader = Reader(
    tests: (string, string) -> Option<nat>, clippy: (string, string) -> Option<bool>, stub: string)

  // ── The trajectory ──

  function Decimal(n: nat): string {
    (if n < 10 then "" else Decimal(n / 10)) + ["0123456789"[n % 10]]
  }

  /** The mark that says how many characters are missing. */
  function Mark(missing: nat): string {
    "…[+" + Decimal(missing) + " chars]"
  }

  function CutTo(s: string, max: nat): string {
    if |s| <= max then s else s[..max] + Mark(|s| - max)
  }

  method Cut(s: string, max: nat) returns (out: string)
    ensures out == CutTo(s, max)
  {
    var total := |s|;
    if total <= max {
      return s;
    }
    out := "";
    for i := 0 to |s|
      invariant i <= max && out == s[..i]
    {
      if i >= max {
        break;
      }
      out := out + [s[i]];
    }
    out := out + ("…[+" + Decimal(total - max) + " chars]");
  }

  function ArgsText(args: Args): string {
    if args.Null? then "null" else args.text
  }

  function StepOf(tool: string, args: Args, ok: bool, stubbed: bool, result: string): Step {
    Step(tool, CutTo(ArgsText(args), ARGS_CHARS), ok, stubbed, CutTo(result, RESULT_CHARS))
  }

  class Trajectory {
    var steps: seq<Step>
    var answer: string
    var dropped: nat
    /** Every step pushed, kept or not. */
    ghost var pushed: seq<Step>

    ghost predicate Valid()
      reads this
    {
      steps == (if |pushed| <= MAX_STEPS then pushed else pushed[..MAX_STEPS]) && |steps| + dropped == |pushed|
    }

    constructor ()
      ensures Valid() && pushed == [] && answer == ""
    {
      steps, answer, dropped, pushed := [], "", 0, [];
    }

    method Push(tool: string, args: Args, ok: bool, stubbed: bool, result: string)
      requires Valid()
      modifies this
      ensures Valid() && pushed == old(pushed) + [StepOf(tool, args, ok, stubbed, result)] && answer == old(answer)
    {
      var argsCut := Cut(ArgsText(args), ARGS_CHARS);
      var resultCut := Cut(result, RESULT_CHARS);
      var step := Step(tool, argsCut, ok, stubbed, resultCut);
      if |steps| < MAX_STEPS {
        steps := steps + [step];
      } else {
        dropped := dropped + 1;
      }
      pushed := pushed + [step];
    }

    method SetAnswer(text: string)
      requires Valid()
      modifies this
      ensures Valid() && pushed == old(pushed) && answer == CutTo(text, ANSWER_CHARS)
    {
      answer := Cut(text, ANSWER_CHARS);
    }
  }

  // ── What a run of events records ──

  /** The arguments of a tool's calls, in order. */
  function Calls(events: seq<Event>, tool: string): seq<Args> {
    if events == [] then []
    else
      var e := events[|events| - 1];
      Calls(events[..|events| - 1], tool) + if e.ToolCall? && e.tool == tool then [e.args] else []
  }

  function Results(events: seq<Event>, tool: string): nat {
    if events == [] then 0
    else
      var e := events[|events| - 1];
      Results(events[..|events| - 1], tool) + if e.ToolResult? && e.tool == tool then 1 else 0
  }

  /** How many of a tool's results found a call waiting. */
  function Paired(events: seq<Event>, tool: string): (n: nat)
    ensures n <= |Calls(events, tool)|
  {
    if events == [] then 0
    else
      var e, but := events[|events| - 1], events[..|events| - 1];
      var n := Paired(but, tool);
      if e.ToolResult? && e.tool == tool && n < |Calls(but, tool)| then n + 1 else n
  }

  /** The arguments a result of the tool would get now. */
  function Next(events: seq<Event>, tool: string): Args {
    var n := Paired(events, tool);
    if n < |Calls(events, tool)| then Calls(events, tool)[n] else Null
  }

  datatype Recorded = Recorded(tool: string, args: Args, success: bool, preview: string)

  function Record(events: seq<Event>): seq<Recorded> {
    if events == [] then []
    else
      var e, but := events[|events| - 1], events[..|events| - 1];
      Record(but) + if e.ToolResult? then [Recorded(e.tool, Next(but, e.tool), e.success, e.preview)] else []
  }

  predicate StartsWith(s: string, prefix: string) {
    |prefix| <= |s| && s[..|prefix|] == prefix
  }

  function AsInvocation(r: Recorded, reader: Reader): Invocation {
    Invocation(r.tool, r.success, reader.tests(r.tool, r.preview), reader.clippy(r.tool, r.preview),
               if r.args.Null? then None else r.args.action, StartsWith(r.preview, reader.stub))
  }

  function AsStep(r: Recorded, reader: Reader): Step {
    StepOf(r.tool, r.args, r.success, StartsWith(r.preview, reader.stub), r.preview)
  }

  function Trace(records: seq<Recorded>, reader: Reader): seq<Invocation> {
    seq(|records|, i requires 0 <= i < |records| => AsInvocation(records[i], reader))
  }

  function Steps(records: seq<Recorded>, reader: Reader): seq<Step> {
    seq(|records|, i requires 0 <= i < |records| => AsStep(records[i], reader))
  }

  /** What the caller's stream is sent of an event: calls, results and thoughts, under the
      agent's name. */
  function Sent(e: Event, agent: string): seq<Event> {
    match e
    case ToolCall(tool, args) => [ToolCall(agent + ":" + tool, args)]
    case ToolResult(tool, success, preview, saw) => [ToolResult(agent + ":" + tool, success, preview, saw)]
    case Thinking(content) => [Thinking("[" + agent + "] " + content)]
    case _ => []
  }

  function Forwarded(events: seq<Event>, agent: string): seq<Event> {
    if events == [] then []
    else Forwarded(events[..|events| - 1], agent) + Sent(events[|events| - 1], agent)
  }

  function Gathered(records: seq<Recorded>): seq<string> {
    if records == [] then []
    else
      var r := records[|records| - 1];
      Gathered(records[..|records| - 1]) + if r.success then [r.preview] else []
  }

  /** The last message. */
  function Answer(events: seq<Event>): string {
    if events == [] then ""
    else if events[|events| - 1].Message? then events[|events| - 1].content
    else Answer(events[..|events| - 1])
  }

  /** The first error. */
  function FirstError(events: seq<Event>): Option<string> {
    if events == [] then None
    else if events[0].Error? then Some(events[0].message)
    else FirstError(events[1..])
  }

  // ── The queue of waiting calls ──

  type Queue = seq<(string, Args)>

  function Of(queue: Queue, tool: string): seq<Args> {
    if queue == [] then [] else (if queue[0].0 == tool then [queue[0].1] else []) + Of(queue[1..], tool)
  }

  method Position(queue: Queue, tool: string) returns (i: nat)
    ensures i <= |queue| && forall j | 0 <= j < i :: queue[j].0 != tool
    ensures i < |queue| ==> queue[i].0 == tool
  {
    i := 0;
    while i < |queue| && queue[i].0 != tool
      invariant i <= |queue| && forall j | 0 <= j < i :: queue[j].0 != tool
    {
      i := i + 1;
    }
  }

  lemma OfFirst(queue: Queue, tool: string)
    requires queue != []
    ensures Of(queue, tool) == (if queue[0].0 == tool then [queue[0].1] else []) + Of(queue[1..], tool)
  {
  }

  lemma {:induction false} OfAppend(a: Queue, b: Queue, tool: string)
    ensures Of(a + b, tool) == Of(a, tool) + Of(b, tool)
  {
    if a == [] {
      assert a + b == b;
    } else {
      var rest, head := a[1..], if a[0].0 == tool then [a[0].1] else [];
      assert (a + b)[1..] == rest + b;
      OfAppend(rest, b, tool);
      OfFirst(a + b, tool);
      OfFirst(a, tool);
      hide Of;
      assert head + (Of(rest, tool) + Of(b, tool)) == head + Of(rest, tool) + Of(b, tool);
    }
  }

  lemma {:induction false} OfNone(queue: Queue, tool: string)
    requires forall j | 0 <= j < |queue| :: queue[j].0 != tool
    ensures Of(queue, tool) == []
  {
    if queue != [] {
      OfNone(queue[1..], tool);
    }
  }

  /** Taking out the first call of a tool takes the first of its arguments and no other's. */
  lemma FirstOut(queue: Queue, i: nat, tool: string, other: string)
    requires i < |queue| && queue[i].0 == tool && forall j | 0 <= j < i :: queue[j].0 != tool
    ensures Of(queue, tool) == [queue[i].1] + Of(queue[..i] + queue[i + 1..], tool)
    ensures other != tool ==> Of(queue[..i] + queue[i + 1..], other) == Of(queue, other)
  {
    OfSplit(queue, i, tool);
    OfSplit(queue, i, other);
    OfNone(queue[..i], tool);
  }

  lemma OfSplit(queue: Queue, i: nat, t: string)
    requires i < |queue|
    ensures Of(queue, t) == Of(queue[..i], t) + (if queue[i].0 == t then [queue[i].1] else []) + Of(queue[i + 1..], t)
    ensures Of(queue[..i] + queue[i + 1..], t) == Of(queue[..i], t) + Of(queue[i + 1..], t)
  {
    assert queue == queue[..i] + ([queue[i]] + queue[i + 1..]);
    assert [queue[i]][1..] == [];
    OfAppend(queue[..i], [queue[i]] + queue[i + 1..], t);
    OfAppend([queue[i]], queue[i + 1..], t);
    OfAppend(queue[..i], queue[i + 1..], t);
  }

  ghost predicate Waits(queue: Queue, events: seq<Event>) {
    forall t: string :: Of(queue, t) == Calls(events, t)[Paired(events, t)..]
  }

  lemma CallWaits(queue: Queue, events: seq<Event>, e: Event)
    requires Waits(queue, events) && e.ToolCall?
    ensures Waits(queue + [(e.tool, e.args)], events + [e])
  {
    assert (events + [e])[..|events|] == events;
    forall t: string
      ensures Of(queue + [(e.tool, e.args)], t) == Calls(events + [e], t)[Paired(events + [e], t)..]
    {
      OfAppend(queue, [(e.tool, e.args)], t);
      assert [(e.tool, e.args)][1..] == [];
    }
  }

  lemma OtherWaits(queue: Queue, events: seq<Event>, e: Event)
    requires Waits(queue, events) && !e.ToolCall? && !e.ToolResult?
    ensures Waits(queue, events + [e])
  {
    assert (events + [e])[..|events|] == events;
    forall t: string ensures Of(queue, t) == Calls(events + [e], t)[Paired(events + [e], t)..] {
    }
  }

  lemma ResultStep(events: seq<Event>, e: Event, t: string)
    requires e.ToolResult?
    ensures Calls(events + [e], t) == Calls(events, t)
    ensures Paired(events + [e], t)
            == Paired(events, t) + if e.tool == t && Paired(events, t) < |Calls(events, t)| then 1 else 0
  {
    assert (events + [e])[..|events|] == events;
    assert Calls(events, t) + [] == Calls(events, t);
  }

  lemma ResultTakes(queue: Queue, events: seq<Event>, e: Event, i: nat)
    requires Waits(queue, events) && e.ToolResult? && i <= |queue|
    requires forall j | 0 <= j < i :: queue[j].0 != e.tool
    requires i < |queue| ==> queue[i].0 == e.tool
    ensures Next(events, e.tool) == if i < |queue| then queue[i].1 else Null
    ensures Waits(if i < |queue| then queue[..i] + queue[i + 1..] else queue, events + [e])
  {
    hide Of, Calls, Paired;
    var rest := if i < |queue| then queue[..i] + queue[i + 1..] else queue;
    if i == |queue| {
      OfNone(queue, e.tool);
    } else {
      FirstOut(queue, i, e.tool, e.tool);
    }
    forall t: string ensures Of(rest, t) == Calls(events + [e], t)[Paired(events + [e], t)..] {
      ResultStep(events, e, t);
      if i < |queue| {
        FirstOut(queue, i, e.tool, t);
      }
    }
  }

  lemma {:induction false} ErrorAppend(events: seq<Event>, e: Event)
    ensures FirstError(events + [e])
            == if FirstError(events).Some? then FirstError(events) else if e.Error? then Some(e.message) else None
  {
    if events == [] {
      assert events + [e] == [e] && [e][1..] == [];
    } else {
      assert (events + [e])[1..] == events[1..] + [e];
      ErrorAppend(events[1..], e);
    }
  }

  lemma RecordAppend(events: seq<Event>, e: Event)
    ensures Record(events + [e])
            == if e.ToolResult? then Record(events) + [Recorded(e.tool, Next(events, e.tool), e.success, e.preview)]
               else Record(events)
    ensures Answer(events + [e]) == if e.Message? then e.content else Answer(events)
  {
    assert (events + [e])[..|events|] == events;
  }

  lemma GatheredAppend(records: seq<Recorded>, r: Recorded)
    ensures Gathered(records + [r]) == if r.success then Gathered(records) + [r.preview] else Gathered(records)
  {
    assert (records + [r])[..|records|] == records;
  }

  lemma TraceAppend(records: seq<Recorded>, r: Recorded, reader: Reader)
    ensures Trace(records + [r], reader) == Trace(records, reader) + [AsInvocation(r, reader)]
    ensures Steps(records + [r], reader) == Steps(records, reader) + [AsStep(r, reader)]
  {
  }

  lemma ForwardedAppend(events: seq<Event>, e: Event, agent: string)
    ensures Forwarded(events + [e], agent) == Forwarded(events, agent) + Sent(e, agent)
  {
    assert (events + [e])[..|events|] == events;
  }

  /** The drain loop: what it returns for a stream of events, and sends on to `sink`. */
  method Drain(events: seq<Event>, agent: string, sink: bool, reader: Reader)
    returns (answer: string, sawError: Option<string>, gathered: seq<string>, trace: seq<Invocation>,
             trajectory: Trajectory, sent: seq<Event>)
    ensures fresh(trajectory) && trajectory.Valid()
    ensures answer == Answer(events) && sawError == FirstError(events)
    ensures gathered == Gathered(Record(events)) && trace == Trace(Record(events), reader)
    ensures trajectory.pushed == Steps(Record(events), reader) && trajectory.answer == ""
    ensures sent == if sink then Forwarded(events, agent) else []
  {
    hide Answer, FirstError, Gathered, Trace, Steps, Record, Waits, StartsWith, CutTo, Next, Forwarded, Sent;
    answer, sawError, gathered, trace, sent := "", None, [], [], [];
    var pending: Queue := [];
    trajectory := new Trajectory();
    Nothing();
    for i := 0 to |events|
      invariant fresh(trajectory) && trajectory.Valid() && trajectory.answer == ""
      invariant answer == Answer(events[..i]) && sawError == FirstError(events[..i])
      invariant gathered == Gathered(Record(events[..i])) && trace == Trace(Record(events[..i]), reader)
      invariant trajectory.pushed == Steps(Record(events[..i]), reader)
      invariant sent == if sink then Forwarded(events[..i], agent) else []
      invariant Waits(pending, events[..i])
    {
      ghost var seen := events[..i];
      var e := events[i];
      assert events[..i + 1] == seen + [e];
      RecordAppend(seen, e);
      ErrorAppend(seen, e);
      ForwardedAppend(seen, e, agent);
      match e {
        case Message(content) =>
          answer := content;
        case Error(message) =>
          if sawError.None? {
            sawError := Some(message);
          }
        case ToolCall(tool, args) =>
          CallWaits(pending, seen, e);
          pending := pending + [(tool, args)];
        case ToolResult(tool, success, preview, saw) =>
          var at := Position(pending, tool);
          ResultTakes(pending, seen, e, at);
          var args := Null;
          if at < |pending| {
            args := pending[at].1;
            pending := pending[..at] + pending[at + 1..];
          }
          ghost var r := Recorded(tool, args, success, preview);
          GatheredAppend(Record(seen), r);
          TraceAppend(Record(seen), r, reader);
          var stubbed := StartsWith(preview, reader.stub);
          trajectory.Push(tool, args, success, stubbed, preview);
          trace := trace + [Invocation(tool, success, reader.tests(tool, preview), reader.clippy(tool, preview),
                                       if args.Null? then None else args.action, stubbed)];
          if success {
            gathered := gathered + [preview];
          }
        case _ =>
      }
      if !e.ToolCall? && !e.ToolResult? {
        OtherWaits(pending, seen, e);
      }
      if sink {
        sent := sent + Sent(e, agent);
      }
    }
    assert events[..|events|] == events;
  }

  /** How a sub-agent's events look to the caller. */
  lemma ForwardedLooks(args: Args, preview: string, saw: Option<nat>)
    ensures Forwarded([ToolCall("search", args), ToolResult("search", true, preview, saw), Thinking("hm"), Done],
                      "coder")
            == [ToolCall("coder:search", args), ToolResult("coder:search", true, preview, saw), Thinking("[coder] hm")]
  {
    var call, result, thought := ToolCall("search", args), ToolResult("search", true, preview, saw), Thinking("hm");
    ForwardedAppend([], call, "coder");
    ForwardedAppend([call], result, "coder");
    ForwardedAppend([call, result], thought, "coder");
    ForwardedAppend([call, result, thought], Done, "coder");
    assert [] + [call] == [call] && [call] + [result] == [call, result];
    assert [call, result] + [thought] == [call, result, thought];
    assert [call, result, thought] + [Done] == [call, result, thought, Done];
    assert "coder" + ":" + "search" == "coder:search" && "[" + "coder" + "] " + "hm" == "[coder] hm";
  }

  /** A receipt says what was called and how it went, and what its reader makes of the tool's
      result. A result is stubbed when its preview goes on from the stub's words; a call without
      arguments is written as the null it has. */
  lemma StubbedIff(r: Recorded, reader: Reader)
    ensures var i := AsInvocation(r, reader);
            && i.tool == r.tool && i.success == r.success
            && i.testsPassed == reader.tests(r.tool, r.preview) && i.clippyClean == reader.clippy(r.tool, r.preview)
            && (i.action.Some? ==> r.args.Args? && r.args.action == i.action)
    ensures AsInvocation(r, reader).stubbed <==> exists rest :: r.preview == reader.stub + rest
    ensures AsStep(r, reader).stubbed == AsInvocation(r, reader).stubbed
    ensures r.args == Null ==> AsStep(r, reader).args == "null"
  {
    if StartsWith(r.preview, reader.stub) {
      assert r.preview == reader.stub + r.preview[|reader.stub|..];
    }
  }

  lemma Nothing()
    ensures Answer([]) == "" && FirstError([]) == None && Record([]) == [] && Gathered([]) == [] && Waits([], [])
    ensures forall agent :: Forwarded([], agent) == []
    ensures forall reader :: Trace([], reader) == [] && Steps([], reader) == []
  {
  }

  // ── What the record means ──

  /** No tool has, at any point, more results than calls. */
  predicate InOrder(events: seq<Event>, tool: string) {
    forall i | 0 <= i <= |events| :: Results(events[..i], tool) <= |Calls(events[..i], tool)|
  }

  /** The records of one tool. */
  function OfTool(records: seq<Recorded>, tool: string): seq<Recorded> {
    if records == [] then []
    else
      var r := records[|records| - 1];
      OfTool(records[..|records| - 1], tool) + if r.tool == tool then [r] else []
  }

  lemma OfToolAppend(records: seq<Recorded>, r: Recorded, tool: string)
    ensures OfTool(records + [r], tool) == if r.tool == tool then OfTool(records, tool) + [r] else OfTool(records, tool)
  {
    assert (records + [r])[..|records|] == records;
  }

  /** The largest lead results ever had over calls. */
  function Excess(events: seq<Event>, tool: string): nat {
    if events == [] then 0
    else
      var now, before := Results(events, tool) - |Calls(events, tool)|, Excess(events[..|events| - 1], tool);
      if now > before then now else before
  }

  lemma {:induction false} ExcessIs(events: seq<Event>, tool: string)
    ensures forall i | 0 <= i <= |events| ::
              Results(events[..i], tool) - |Calls(events[..i], tool)| <= Excess(events, tool)
    ensures Excess(events, tool) == 0 <==> InOrder(events, tool)
  {
    assert events[..|events|] == events;
    if events != [] {
      var but := events[..|events| - 1];
      ExcessIs(but, tool);
      forall i | 0 <= i <= |but| ensures events[..i] == but[..i] {
      }
      if InOrder(events, tool) {
        assert forall i | 0 <= i <= |but| :: but[..i] == events[..i];
        assert InOrder(but, tool);
      }
    }
  }

  /** Every stream: the results of a tool that get no arguments are exactly as many as its
      results ever led its calls by. */
  lemma {:induction false} UnpairedIs(events: seq<Event>, tool: string)
    ensures Results(events, tool) - Paired(events, tool) == Excess(events, tool)
  {
    if events != [] {
      UnpairedIs(events[..|events| - 1], tool);
      ExcessIs(events[..|events| - 1], tool);
      assert events[..|events| - 1][..|events| - 1] == events[..|events| - 1];
    }
  }

  /** The records hold, one by one, the arguments of the first calls. */
  predicate HoldCalls(records: seq<Recorded>, calls: seq<Args>) {
    |records| <= |calls| && forall k | 0 <= k < |records| :: records[k].args == calls[k]
  }

  /** The k-th record of a tool that found a call holds the arguments of its k-th call. */
  lemma {:induction false} KthResultKthCall(events: seq<Event>, tool: string)
    requires InOrder(events, tool)
    ensures |OfTool(Record(events), tool)| == Results(events, tool)
    ensures HoldCalls(OfTool(Record(events), tool), Calls(events, tool))
  {
    if events != [] {
      var e, but := events[|events| - 1], events[..|events| - 1];
      assert events == but + [e];
      InOrderPrefix(but, e, tool);
      KthResultKthCall(but, tool);
      NextResult(but, e, tool);
    }
  }

  lemma NextResult(but: seq<Event>, e: Event, tool: string)
    requires InOrder(but, tool) && Results(but + [e], tool) <= |Calls(but + [e], tool)|
    requires |OfTool(Record(but), tool)| == Results(but, tool)
    requires HoldCalls(OfTool(Record(but), tool), Calls(but, tool))
    ensures |OfTool(Record(but + [e]), tool)| == Results(but + [e], tool)
    ensures HoldCalls(OfTool(Record(but + [e]), tool), Calls(but + [e], tool))
  {
    hide InOrder, Record, OfTool, Paired, Calls, Results, Next;
    CountsAppend(but, e, tool);
    RecordAppend(but, e);
    if e.ToolResult? {
      OfToolAppend(Record(but), Recorded(e.tool, Next(but, e.tool), e.success, e.preview), tool);
      if e.tool == tool {
        NextIs(but, tool);
      }
    }
  }

  lemma CountsAppend(events: seq<Event>, e: Event, t: string)
    ensures Calls(events + [e], t) == Calls(events, t) + if e.ToolCall? && e.tool == t then [e.args] else []
    ensures Results(events + [e], t) == Results(events, t) + if e.ToolResult? && e.tool == t then 1 else 0
  {
    assert (events + [e])[..|events|] == events;
  }

  lemma NextIs(events: seq<Event>, tool: string)
    requires InOrder(events, tool) && Results(events, tool) < |Calls(events, tool)|
    ensures Next(events, tool) == Calls(events, tool)[Results(events, tool)]
  {
    UnpairedIs(events, tool);
    ExcessIs(events, tool);
  }

  lemma InOrderPrefix(but: seq<Event>, e: Event, tool: string)
    requires InOrder(but + [e], tool)
    ensures InOrder(but, tool) && Results(but + [e], tool) <= |Calls(but + [e], tool)|
  {
    var events := but + [e];
    assert events[..|events|] == events;
    forall i | 0 <= i <= |but| ensures but[..i] == events[..i] {
    }
  }

  /** Each result gives one record, in the order of the results. */
  lemma {:induction false} OneRecordPerResult(events: seq<Event>, e: nat)
    requires e < |events| && events[e].ToolResult?
    ensures var at := |Record(events[..e])|;
            && at < |Record(events)|
            && Record(events)[at]
               == Recorded(events[e].tool, Next(events[..e], events[e].tool), events[e].success, events[e].preview)
    decreases |events|
  {
    if e < |events| - 1 {
      OneRecordPerResult(events[..|events| - 1], e);
      assert events[..|events| - 1][..e] == events[..e];
    }
  }

  /** A text comes out as it went in exactly when it fits, or ends in just the mark a cut
      would put there; a longer one keeps its head. */
  lemma CutKeeps(s: string, max: nat)
    ensures CutTo(s, max) == s <==> |s| <= max || (|s| == max + 12 && s[max..] == "…[+12 chars]")
    ensures |s| > max ==> CutTo(s, max)[..max] == s[..max] && |CutTo(s, max)| == max + 10 + |Decimal(|s| - max)|
  {
    hide Mark, Decimal;
    if |s| > max {
      MarkLength(|s| - max);
      MarkOfTwelve();
      SameHead(s, max, Mark(|s| - max));
    }
  }

  lemma SameHead(s: string, max: nat, mark: string)
    requires max <= |s|
    ensures s[..max] + mark == s <==> s[max..] == mark
    ensures (s[..max] + mark)[..max] == s[..max]
  {
    assert s == s[..max] + s[max..];
    assert (s[..max] + mark)[max..] == mark;
  }

  /** Only for twelve characters is the mark as long as what it stands for. */
  lemma MarkLength(missing: nat)
    ensures |Mark(missing)| == 10 + |Decimal(missing)|
    ensures |Mark(missing)| == missing <==> missing == 12
  {
    DecimalLength(missing);
    hide Decimal;
  }

  lemma MarkOfTwelve()
    ensures Mark(12) == "…[+12 chars]"
  {
    assert Decimal(12) == Decimal(1) + "2";
  }

  lemma {:induction false} DecimalLength(n: nat)
    ensures n < 10 ==> |Decimal(n)| == 1
    ensures 10 <= n < 100 ==> |Decimal(n)| == 2
    ensures n >= 100 ==> |Decimal(n)| < n - 10
  {
    if n >= 10 {
      DecimalLength(n / 10);
    }
  }
}
