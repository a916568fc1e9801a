/** Progress publishing of an MCP job. */
module JobTrace {
  // Streamed tokens are collected in two buffers and published as blocks when the stream type changes,
  // on a status, on a tool result and at the end.

  // cogito.StreamEventType; Unset is its zero value, the initial lastStreamType.
  datatype StreamType = Unset | Reasoning | Content | ToolCall | Other(name: string)

  datatype StreamEvent = StreamEvent(kind: StreamType, content: string, toolName: string, toolArgs: string)

  // The three callbacks registered with cogito.
  datatype Event =
    | Stream(ev: StreamEvent)
    | Status(status: string)
    | ToolResult(name: string, result: string)

  datatype ProgressEvent = ProgressEvent(traceType: string, content: string)

  datatype State = State(
    reasoningBuf: string, contentBuf: string, lastStreamType: StreamType, published: seq<ProgressEvent>)

  const INITIAL := State("", "", Unset, [])

  function Block(traceType: string, text: string): seq<ProgressEvent> {
    if text == "" then [] else [ProgressEvent(traceType, text)]
  }

  function Flushed(st: State): State {
    State("", "", st.lastStreamType,
          st.published + Block("reasoning", st.reasoningBuf) + Block("content", st.contentBuf))
  }

  function Publish(st: State, traceType: string, content: string): State {
    st.(published := st.published + [ProgressEvent(traceType, content)])
  }

  function AfterEvent(st: State, e: Event): State {
    match e
    case Status(status) => Publish(Flushed(st), "status", status)
    case ToolResult(name, result) => Publish(Flushed(st), "tool_result", name + ": " + result)
    case Stream(ev) =>
      var st1 := if ev.kind != st.lastStreamType then Flushed(st).(lastStreamType := ev.kind) else st;
      match ev.kind
      case Reasoning => st1.(reasoningBuf := st1.reasoningBuf + ev.content)
      case Content => st1.(contentBuf := st1.contentBuf + ev.content)
      case ToolCall => Publish(st1, "tool_call", ev.toolName + "(" + ev.toolArgs + ")")
      case _ => st1
  }

  function Run(events: seq<Event>): State {
    if events == [] then INITIAL else AfterEvent(Run(events[..|events| - 1]), events[|events| - 1])
  }

  class StreamPublisher {
    var reasoningBuf: string
    var contentBuf: string
    var lastStreamType: StreamType
    var published: seq<ProgressEvent>

    ghost function View(): State
      reads this
    {
      State(reasoningBuf, contentBuf, lastStreamType, published)
    }

    constructor ()
      ensures View() == INITIAL
    {
      reasoningBuf, contentBuf, lastStreamType, published := "", "", Unset, [];
    }

    method FlushStreamBuf()
      modifies this
      ensures View() == Flushed(old(View()))
    {
      if |reasoningBuf| > 0 {
        published := published + [ProgressEvent("reasoning", reasoningBuf)];
        reasoningBuf := "";
      }
      if |contentBuf| > 0 {
        published := published + [ProgressEvent("content", contentBuf)];
        contentBuf := "";
      }
    }

    method OnStatus(status: string)
      modifies this
      ensures View() == AfterEvent(old(View()), Status(status))
    {
      FlushStreamBuf();
      published := published + [ProgressEvent("status", status)];
    }

    method OnToolCallResult(name: string, result: string)
      modifies this
      ensures View() == AfterEvent(old(View()), ToolResult(name, result))
    {
      FlushStreamBuf();
      published := published + [ProgressEvent("tool_result", name + ": " + result)];
    }

    method OnStream(ev: StreamEvent)
      modifies this
      ensures View() == AfterEvent(old(View()), Stream(ev))
    {
      if ev.kind != lastStreamType {
        FlushStreamBuf();
        lastStreamType := ev.kind;
      }
      match ev.kind {
        case Reasoning => reasoningBuf := reasoningBuf + ev.content;
        case Content => contentBuf := contentBuf + ev.content;
        case ToolCall =>
          published := published + [ProgressEvent("tool_call", ev.toolName + "(" + ev.toolArgs + ")")];
        case _ =>
      }
    }
  }

  // The callbacks in the order cogito makes them, then the final flush.
  method ExecuteJob(events: seq<Event>) returns (published: seq<ProgressEvent>)
    ensures published == Flushed(Run(events)).published
  {
    var p := new StreamPublisher();
    for i := 0 to |events|
      invariant p.View() == Run(events[..i])
    {
      assert events[..i + 1][..i] == events[..i];
      match events[i] {
        case Status(status) => p.OnStatus(status);
        case ToolResult(name, result) => p.OnToolCallResult(name, result);
        case Stream(ev) => p.OnStream(ev);
      }
    }
    assert events[..|events|] == events;
    p.FlushStreamBuf();
    published := p.published;
  }

  // ---------- The unbuffered publisher ----------

  // What an observer sees: single characters of a text kind, or whole events.
  datatype Mark = Char(traceType: string, c: char) | Whole(e: ProgressEvent)

  function Chars(traceType: string, text: string): seq<Mark> {
    if text == "" then [] else Chars(traceType, text[..|text| - 1]) + [Char(traceType, text[|text| - 1])]
  }

  predicate IsText(e: ProgressEvent) {
    e.traceType == "reasoning" || e.traceType == "content"
  }

  function MarksOf(e: ProgressEvent): seq<Mark> {
    if IsText(e) then Chars(e.traceType, e.content) else [Whole(e)]
  }

  function Expand(log: seq<ProgressEvent>): seq<Mark> {
    if log == [] then [] else Expand(log[..|log| - 1]) + MarksOf(log[|log| - 1])
  }

  // Every callback published on the spot, character by character.
  function Immediate(e: Event): seq<Mark> {
    match e
    case Status(status) => [Whole(ProgressEvent("status", status))]
    case ToolResult(name, result) => [Whole(ProgressEvent("tool_result", name + ": " + result))]
    case Stream(ev) =>
      match ev.kind
      case Reasoning => Chars("reasoning", ev.content)
      case Content => Chars("content", ev.content)
      case ToolCall => [Whole(ProgressEvent("tool_call", ev.toolName + "(" + ev.toolArgs + ")"))]
      case _ => []
  }

  function Unbuffered(events: seq<Event>): seq<Mark> {
    if events == [] then [] else Unbuffered(events[..|events| - 1]) + Immediate(events[|events| - 1])
  }

  lemma {:induction false} CharsOfConcat(traceType: string, a: string, b: string)
    ensures Chars(traceType, a + b) == Chars(traceType, a) + Chars(traceType, b)
  {
    if b == "" {
      assert a + b == a;
    } else {
      var front := b[..|b| - 1];
      assert (a + b)[..|a + b| - 1] == a + front;
      CharsOfConcat(traceType, a, front);
    }
  }

  lemma ExpandOneMore(log: seq<ProgressEvent>, e: ProgressEvent)
    ensures Expand(log + [e]) == Expand(log) + MarksOf(e)
  {
    assert (log + [e])[..|log|] == log;
  }

  lemma ExpandBlock(log: seq<ProgressEvent>, traceType: string, text: string)
    requires traceType == "reasoning" || traceType == "content"
    ensures Expand(log + Block(traceType, text)) == Expand(log) + Chars(traceType, text)
  {
    if text == "" {
      assert log + Block(traceType, text) == log;
    } else {
      ExpandOneMore(log, ProgressEvent(traceType, text));
    }
  }

  // Published so far plus what the buffers hold.
  function Visible(st: State): seq<Mark> {
    Expand(st.published) + Chars("reasoning", st.reasoningBuf) + Chars("content", st.contentBuf)
  }

  // Buffered text belongs to the current stream type.
  predicate BuffersMatch(st: State) {
    && (st.reasoningBuf != "" ==> st.lastStreamType == Reasoning)
    && (st.contentBuf != "" ==> st.lastStreamType == Content)
  }

  predicate NoEmptyBlock(log: seq<ProgressEvent>) {
    forall i | 0 <= i < |log| && IsText(log[i]) :: log[i].content != ""
  }

  lemma FlushKeepsVisible(st: State)
    ensures Visible(Flushed(st)) == Visible(st) == Expand(Flushed(st).published)
  {
    ExpandBlock(st.published, "reasoning", st.reasoningBuf);
    ExpandBlock(st.published + Block("reasoning", st.reasoningBuf), "content", st.contentBuf);
  }

  lemma PublishIsVisible(st: State, traceType: string, content: string)
    requires st.reasoningBuf == "" && st.contentBuf == "" && traceType != "reasoning" && traceType != "content"
    ensures Visible(Publish(st, traceType, content)) == Visible(st) + [Whole(ProgressEvent(traceType, content))]
  {
    ExpandOneMore(st.published, ProgressEvent(traceType, content));
  }

  lemma EventIsVisible(st: State, e: Event)
    requires BuffersMatch(st)
    ensures Visible(AfterEvent(st, e)) == Visible(st) + Immediate(e)
    ensures BuffersMatch(AfterEvent(st, e))
  {
    FlushKeepsVisible(st);
    match e
    case Status(status) => PublishIsVisible(Flushed(st), "status", status);
    case ToolResult(name, result) => PublishIsVisible(Flushed(st), "tool_result", name + ": " + result);
    case Stream(ev) =>
      var st1 := if ev.kind != st.lastStreamType then Flushed(st).(lastStreamType := ev.kind) else st;
      assert Visible(st1) == Visible(st);
      StreamIsVisible(st1, ev);
  }

  lemma AddedText<T>(log: seq<T>, a: seq<T>, b: seq<T>, more: seq<T>)
    ensures log + a + (b + more) == log + a + b + more
    ensures log + (a + more) + [] == log + a + [] + more
  {}

  // Once the stream type has been switched, the other buffer is empty.
  lemma ReasoningIsVisible(st: State, text: string)
    requires st.contentBuf == ""
    ensures Visible(st.(reasoningBuf := st.reasoningBuf + text)) == Visible(st) + Chars("reasoning", text)
  {
    CharsOfConcat("reasoning", st.reasoningBuf, text);
    AddedText(Expand(st.published), Chars("reasoning", st.reasoningBuf), [], Chars("reasoning", text));
  }

  lemma ContentIsVisible(st: State, text: string)
    ensures Visible(st.(contentBuf := st.contentBuf + text)) == Visible(st) + Chars("content", text)
  {
    CharsOfConcat("content", st.contentBuf, text);
    AddedText(Expand(st.published), Chars("reasoning", st.reasoningBuf), Chars("content", st.contentBuf),
              Chars("content", text));
  }

  lemma StreamIsVisible(st: State, ev: StreamEvent)
    requires BuffersMatch(st) && ev.kind == st.lastStreamType
    ensures Visible(AfterEvent(st, Stream(ev))) == Visible(st) + Immediate(Stream(ev))
  {
    match ev.kind
    case Reasoning => ReasoningIsVisible(st, ev.content);
    case Content => ContentIsVisible(st, ev.content);
    case ToolCall => PublishIsVisible(st, "tool_call", ev.toolName + "(" + ev.toolArgs + ")");
    case _ =>
  }

  /** At every moment the published log followed by the buffered text is, character for character,
      what the unbuffered publisher has sent. */
  lemma {:induction false} BufferingIsTransparent(events: seq<Event>)
    ensures Visible(Run(events)) == Unbuffered(events)
    ensures BuffersMatch(Run(events))
  {
    if events != [] {
      BufferingIsTransparent(events[..|events| - 1]);
      EventIsVisible(Run(events[..|events| - 1]), events[|events| - 1]);
    }
  }

  /** The log of a finished job expands to the unbuffered one. */
  lemma JobRefinesUnbuffered(events: seq<Event>)
    ensures Expand(Flushed(Run(events)).published) == Unbuffered(events)
  {
    BufferingIsTransparent(events);
    FlushKeepsVisible(Run(events));
  }

  lemma LogStaysWithoutEmptyBlock(st: State, traceType: string, content: string)
    requires NoEmptyBlock(st.published) && traceType != "reasoning" && traceType != "content"
    ensures NoEmptyBlock(Flushed(st).published) && NoEmptyBlock(Publish(st, traceType, content).published)
  {}

  lemma EventKeepsNoEmptyBlock(st: State, e: Event)
    requires NoEmptyBlock(st.published)
    ensures NoEmptyBlock(AfterEvent(st, e).published)
  {
    LogStaysWithoutEmptyBlock(st, "status", "");
    match e
    case Status(status) => LogStaysWithoutEmptyBlock(Flushed(st), "status", status);
    case ToolResult(name, result) => LogStaysWithoutEmptyBlock(Flushed(st), "tool_result", name + ": " + result);
    case Stream(ev) =>
      var st1 := if ev.kind != st.lastStreamType then Flushed(st).(lastStreamType := ev.kind) else st;
      assert NoEmptyBlock(st1.published);
      if ev.kind == ToolCall {
        LogStaysWithoutEmptyBlock(st1, "tool_call", ev.toolName + "(" + ev.toolArgs + ")");
      }
  }

  lemma {:induction false} NoEmptyBlockSoFar(events: seq<Event>)
    ensures NoEmptyBlock(Run(events).published)
  {
    if events != [] {
      NoEmptyBlockSoFar(events[..|events| - 1]);
      EventKeepsNoEmptyBlock(Run(events[..|events| - 1]), events[|events| - 1]);
    }
  }

  lemma AtomicEventLeavesNothing(st: State, e: Event)
    requires BuffersMatch(st) && (e.Stream? ==> e.ev.kind == ToolCall)
    ensures AfterEvent(st, e).reasoningBuf == "" && AfterEvent(st, e).contentBuf == ""
  {}

  /** No published text block is empty, and the two buffers are never both in use. */
  lemma BlocksAreNotEmpty(events: seq<Event>)
    ensures NoEmptyBlock(Flushed(Run(events)).published)
    ensures Run(events).reasoningBuf == "" || Run(events).contentBuf == ""
  {
    BufferingIsTransparent(events);
    NoEmptyBlockSoFar(events);
  }

  /** A status, a tool result or a tool call is published after all text that came before it: it
      leaves nothing buffered, so the log is then up to date. */
  lemma AtomicEventsFlush(events: seq<Event>, e: Event)
    requires e.Stream? ==> e.ev.kind == ToolCall
    ensures Expand(Run(events + [e]).published) == Unbuffered(events + [e])
  {
    assert (events + [e])[..|events|] == events;
    BufferingIsTransparent(events);
    AtomicEventLeavesNothing(Run(events), e);
    BufferingIsTransparent(events + [e]);
  }

  // ---------- Blocks ----------

  // The kind of the latest stream event; a status or a tool result does not change it.
  function LastKind(events: seq<Event>): StreamType {
    if events == [] then Unset
    else if events[|events| - 1].Stream? then events[|events| - 1].ev.kind
    else LastKind(events[..|events| - 1])
  }

  lemma {:induction false} KindIsLast(events: seq<Event>)
    ensures Run(events).lastStreamType == LastKind(events)
  {
    if events != [] {
      KindIsLast(events[..|events| - 1]);
    }
  }

  lemma EventExtendsLog(st: State, e: Event)
    ensures st.published <= AfterEvent(st, e).published
    ensures BuffersMatch(st) && (e.Stream? && e.ev.kind != ToolCall ==> e.ev.kind != st.lastStreamType) ==>
              Flushed(st).published <= AfterEvent(st, e).published
  {
    assert st.published <= Flushed(st).published;
  }

  lemma {:induction false} LogGrows(events: seq<Event>, later: seq<Event>)
    ensures Run(events).published <= Run(events + later).published
  {
    if later == [] {
      assert events + later == events;
    } else {
      LogGrows(events, later[..|later| - 1]);
      EventExtendsLog(Run(events + later[..|later| - 1]), later[|later| - 1]);
      assert (events + later)[..|events + later| - 1] == events + later[..|later| - 1];
    }
  }

  /** A status, a tool result, a tool call, and every stream event of another kind than the one before it,
      whatever the two kinds are, ends the block before it: in the finished log a block boundary
      falls exactly between what was sent before and what is sent from then on. */
  lemma BlocksAreSeparated(events: seq<Event>, e: Event, later: seq<Event>) returns (n: nat)
    requires e.Stream? && e.ev.kind != ToolCall ==> e.ev.kind != LastKind(events)
    ensures var log := Flushed(Run(events + [e] + later)).published;
            n <= |log| && Expand(log[..n]) == Unbuffered(events)
  {
    var st := Run(events);
    KindIsLast(events);
    BufferingIsTransparent(events);
    FlushKeepsVisible(st);
    assert (events + [e])[..|events|] == events;
    EventExtendsLog(st, e);
    LogGrows(events + [e], later);
    n := |Flushed(st).published|;
    assert Flushed(Run(events + [e] + later)).published[..n] == Flushed(st).published;
  }

  // ---------- Tokens are coalesced ----------

  function Joined(tokens: seq<Event>): string
    requires forall i | 0 <= i < |tokens| :: tokens[i].Stream?
  {
    if tokens == [] then "" else Joined(tokens[..|tokens| - 1]) + tokens[|tokens| - 1].ev.content
  }

  lemma {:induction false} TokensStayBuffered(events: seq<Event>, tokens: seq<Event>, kind: StreamType)
    requires kind == Reasoning || kind == Content
    requires tokens != [] && forall i | 0 <= i < |tokens| :: tokens[i].Stream? && tokens[i].ev.kind == kind
    requires LastKind(events) != kind || (events != [] && !events[|events| - 1].Stream?)
    ensures Run(events + tokens)
            == State(if kind == Reasoning then Joined(tokens) else "", if kind == Content then Joined(tokens) else "",
                     kind, Flushed(Run(events)).published)
  {
    var front, last := tokens[..|tokens| - 1], tokens[|tokens| - 1];
    assert (events + tokens)[..|events + tokens| - 1] == events + front;
    if front == [] {
      assert events + front == events;
      KindIsLast(events);
      BufferingIsTransparent(events);
    } else {
      TokensStayBuffered(events, front, kind);
    }
  }

  /** However many tokens of one kind arrive in a row, they become one published block. */
  lemma TokensBecomeOneBlock(events: seq<Event>, tokens: seq<Event>, kind: StreamType)
    requires kind == Reasoning || kind == Content
    requires tokens != [] && forall i | 0 <= i < |tokens| :: tokens[i].Stream? && tokens[i].ev.kind == kind
    requires LastKind(events) != kind || (events != [] && !events[|events| - 1].Stream?)
    ensures Flushed(Run(events + tokens)).published
            == Flushed(Run(events)).published + Block(if kind == Reasoning then "reasoning" else "content", Joined(tokens))
  {
    TokensStayBuffered(events, tokens, kind);
  }
}
