/** The streaming branch of ModelInference. */
module TokenStream {
  // Replies carrying arbitrary byte chunks are cut into complete runes, with the unfinished tail
  // carried over to the next reply.
  //
  // Strings are byte sequences, as in Go.  A text in the sense of this module is the UTF-8
  // encoding of scalar values other than U+FFFD, because the loop stops at U+FFFD as well.

  import opened ByteType
  import opened Utf8

  datatype ChatDelta = ChatDelta(content: string, reasoning: string)

  datatype Reply = Reply(message: seq<byte>, promptTokens: int, tokens: int, chatDeltas: seq<ChatDelta>)

  datatype Usage = Usage(prompt: int, completion: int, chatDeltas: seq<ChatDelta>)

  // One invocation of the caller's token callback.
  datatype Call = Call(token: seq<byte>, usage: Usage)

  // ---------- What the carry-over loop computes ----------

  // Bytes at the front of p that the loop consumes before it meets RUNE_ERROR.
  function TextLength(p: seq<byte>): (n: nat)
    ensures n <= |p|
  {
    var d := DecodeRune(p);
    if d.rune == RUNE_ERROR then 0
    else d.size + TextLength(p[d.size..])
  }

  predicate IsTextRune(c: int) {
    IsScalar(c) && c != RUNE_ERROR
  }

  predicate AreTextRunes(cs: seq<int>) {
    forall i | 0 <= i < |cs| :: IsTextRune(cs[i])
  }

  function EncodeText(cs: seq<int>): seq<byte>
    requires AreTextRunes(cs)
  {
    if cs == [] then [] else EncodeRune(cs[0]) + EncodeText(cs[1..])
  }

  ghost predicate IsEncodingOf(p: seq<byte>, cs: seq<int>) {
    AreTextRunes(cs) && p == EncodeText(cs)
  }

  ghost predicate IsText(p: seq<byte>) {
    exists cs :: IsEncodingOf(p, cs)
  }

  // t is the longest prefix of p that is a text.
  ghost predicate IsLongestTextPrefix(t: seq<byte>, p: seq<byte>) {
    && t <= p
    && IsText(t)
    && forall u | u <= p && IsText(u) :: |u| <= |t|
  }

  // A text rune at the front is consumed whole, whatever follows it.
  lemma TextLengthStep(c: int, rest: seq<byte>)
    requires IsTextRune(c)
    ensures TextLength(EncodeRune(c) + rest) == |EncodeRune(c)| + TextLength(rest)
  {
    DecodeAfterEncode(c, rest);
    assert (EncodeRune(c) + rest)[|EncodeRune(c)|..] == rest;
  }

  lemma {:induction false} TextIsConsumed(cs: seq<int>, rest: seq<byte>)
    requires AreTextRunes(cs)
    ensures TextLength(EncodeText(cs) + rest) == |EncodeText(cs)| + TextLength(rest)
  {
    if cs == [] {
      assert EncodeText(cs) + rest == rest;
    } else {
      assert EncodeText(cs) + rest == EncodeRune(cs[0]) + (EncodeText(cs[1..]) + rest);
      TextLengthStep(cs[0], EncodeText(cs[1..]) + rest);
      TextIsConsumed(cs[1..], rest);
    }
  }

  lemma CutInside(p: seq<byte>, q: seq<byte>, n: nat)
    requires n <= |p|
    ensures p + q == p[..n] + (p[n..] + q) && p == p[..n] + p[n..]
  {}

  lemma TextLengthUnfolds(p: seq<byte>)
    ensures var d := DecodeRune(p);
            if d.rune == RUNE_ERROR then TextLength(p) == 0
            else 1 <= d.size <= |p| && TextLength(p) == d.size + TextLength(p[d.size..])
  {}

  lemma FrontRune(p: seq<byte>) returns (c: int, rest: seq<byte>)
    requires TextLength(p) > 0
    ensures IsTextRune(c) && p == EncodeRune(c) + rest
    ensures TextLength(p) == |EncodeRune(c)| + TextLength(rest)
  {
    TextLengthUnfolds(p);
    EncodeAfterDecode(p);
    var d := DecodeRune(p);
    c, rest := d.rune, p[d.size..];
    CutInside(p, [], d.size);
  }

  lemma EncodeOneMore(c: int, cs: seq<int>, rest: seq<byte>, n: nat)
    requires IsTextRune(c) && n <= |rest| && IsEncodingOf(rest[..n], cs)
    ensures IsEncodingOf((EncodeRune(c) + rest)[..|EncodeRune(c)| + n], [c] + cs)
  {
    assert ([c] + cs)[1..] == cs;
    assert (EncodeRune(c) + rest)[..|EncodeRune(c)| + n] == EncodeRune(c) + rest[..n];
  }

  lemma {:induction false} ConsumedIsText(p: seq<byte>) returns (cs: seq<int>)
    ensures IsEncodingOf(p[..TextLength(p)], cs)
    decreases |p|
  {
    if TextLength(p) == 0 {
      cs := [];
    } else {
      var c, rest := FrontRune(p);
      var tail := ConsumedIsText(rest);
      cs := [c] + tail;
      EncodeOneMore(c, tail, rest, TextLength(rest));
    }
  }

  lemma TextPrefixIsConsumed(u: seq<byte>, p: seq<byte>)
    requires u <= p && IsText(u)
    ensures |u| <= TextLength(p)
  {
    var us :| IsEncodingOf(u, us);
    TextIsConsumed(us, p[|u|..]);
    assert p == u + p[|u|..];
  }

  /** The loop consumes exactly the longest prefix that is a text. */
  lemma ConsumesLongestTextPrefix(p: seq<byte>)
    ensures IsLongestTextPrefix(p[..TextLength(p)], p)
  {
    var cs := ConsumedIsText(p);
    assert IsText(p[..TextLength(p)]);
    forall u | u <= p && IsText(u)
      ensures |u| <= TextLength(p)
    {
      TextPrefixIsConsumed(u, p);
    }
  }

  lemma LongestTextPrefixIsUnique(t: seq<byte>, u: seq<byte>, p: seq<byte>)
    requires IsLongestTextPrefix(t, p) && IsLongestTextPrefix(u, p)
    ensures t == u
  {
    assert |t| == |u| && t == p[..|t|] && u == p[..|u|];
  }

  lemma IsTextIffConsumedWhole(p: seq<byte>)
    ensures IsText(p) <==> TextLength(p) == |p|
  {
    ConsumesLongestTextPrefix(p);
    assert p[..|p|] == p;
    if IsText(p) {
      assert p <= p;
    }
  }

  lemma ConsumedPrefixIsText(p: seq<byte>)
    ensures IsText(p[..TextLength(p)])
  {
    var cs := ConsumedIsText(p);
  }

  lemma TextThenMore(u: seq<byte>, v: seq<byte>)
    requires IsText(u)
    ensures TextLength(u + v) == |u| + TextLength(v)
  {
    var us :| IsEncodingOf(u, us);
    TextIsConsumed(us, v);
  }

  // Consuming p, carrying the rest and then appending q is consuming p + q at once.
  lemma {:induction false} ConsumptionResumes(p: seq<byte>, q: seq<byte>)
    ensures TextLength(p + q) == TextLength(p) + TextLength(p[TextLength(p)..] + q)
  {
    var n := TextLength(p);
    ConsumedPrefixIsText(p);
    TextThenMore(p[..n], p[n..] + q);
    CutInside(p, q, n);
  }

  lemma CarryIsStuck(p: seq<byte>)
    ensures TextLength(p[TextLength(p)..]) == 0
  {
    ConsumptionResumes(p, []);
    assert p + [] == p && p[TextLength(p)..] + [] == p[TextLength(p)..];
  }

  // ---------- The callback ----------

  datatype State = State(
    partialRune: seq<byte>, ss: seq<byte>, usage: Usage, allChatDeltas: seq<ChatDelta>, calls: seq<Call>)

  // A call of tokenCallback.  With the "usage" feature flag the callback is wrapped: it counts
  // one more completion token first and then reports the shared usage record.
  function Notify(st: State, token: seq<byte>, countUsage: bool): State {
    var usage := if countUsage then st.usage.(completion := st.usage.completion + 1) else st.usage;
    st.(usage := usage, calls := st.calls + [Call(token, usage)])
  }

  function Start(replyPrefix: seq<byte>, promptTokens: int, countUsage: bool): State {
    var st := State([], [], Usage(promptTokens, 0, []), [], []);
    if replyPrefix != [] then Notify(st, replyPrefix, countUsage) else st
  }

  function AfterReply(st: State, reply: Reply, countUsage: bool): State {
    var bytes := st.partialRune + reply.message;
    var n := TextLength(bytes);
    var st1 := st.(
      partialRune := bytes[n..],
      usage := Usage(reply.promptTokens, reply.tokens, reply.chatDeltas),
      allChatDeltas := st.allChatDeltas + reply.chatDeltas);
    var st2 := if n > 0 then Notify(st1, bytes[..n], countUsage).(ss := st.ss + bytes[..n]) else st1;
    var st3 := if reply.message == [] then Notify(st2, [], countUsage) else st2;
    st3.(usage := st3.usage.(chatDeltas := []))
  }

  function Run(replyPrefix: seq<byte>, promptTokens: int, replies: seq<Reply>, countUsage: bool): State {
    if replies == [] then Start(replyPrefix, promptTokens, countUsage)
    else
      var last := |replies| - 1;
      AfterReply(Run(replyPrefix, promptTokens, replies[..last], countUsage), replies[last], countUsage)
  }

  lemma TakeOne(done: seq<byte>, p: seq<byte>, size: nat)
    requires size <= |p|
    ensures (done + p[..size]) + p[size..] == done + p
  {}

  class StreamCallback {
    const countUsage: bool
    var partialRune: seq<byte>
    var ss: seq<byte>
    var usage: Usage
    var allChatDeltas: seq<ChatDelta>
    var calls: seq<Call>  // what the caller's callback has been given so far

    ghost function View(): State
      reads this
    {
      State(partialRune, ss, usage, allChatDeltas, calls)
    }

    constructor (replyPrefix: seq<byte>, promptTokens: int, countUsage: bool)
      ensures this.countUsage == countUsage
      ensures View() == Start(replyPrefix, promptTokens, countUsage)
    {
      this.countUsage := countUsage;
      partialRune, ss, allChatDeltas, calls := [], [], [], [];
      usage := Usage(promptTokens, 0, []);
      new;
      if replyPrefix != [] {
        TokenCallback(replyPrefix);
      }
    }

    method TokenCallback(token: seq<byte>)
      modifies this`usage, this`calls
      ensures View() == Notify(old(View()), token, countUsage)
    {
      if countUsage {
        usage := usage.(completion := usage.completion + 1);
      }
      calls := calls + [Call(token, usage)];
    }

    // The inner loop: moves the complete runes out of the carry buffer.
    method TakeCompleteRunes() returns (completeRunes: seq<byte>)
      modifies this`partialRune
      ensures var n := TextLength(old(partialRune));
              completeRunes == old(partialRune)[..n] && partialRune == old(partialRune)[n..]
    {
      completeRunes := [];
      while |partialRune| > 0
        invariant completeRunes + partialRune == old(partialRune)
        invariant TextLength(old(partialRune)) == |completeRunes| + TextLength(partialRune)
        decreases |partialRune|
      {
        var d := DecodeRune(partialRune);
        if d.rune == RUNE_ERROR {
          break;
        }
        TakeOne(completeRunes, partialRune, d.size);
        assert TextLength(partialRune) == d.size + TextLength(partialRune[d.size..]);
        completeRunes := completeRunes + partialRune[..d.size];
        partialRune := partialRune[d.size..];
      }
      assert TextLength(partialRune) == 0;
    }

    // The function literal given to PredictStream.
    method OnReply(reply: Reply)
      modifies this
      ensures View() == AfterReply(old(View()), reply, countUsage)
    {
      var msg := reply.message;
      ghost var st := View();
      partialRune := partialRune + msg;
      usage := usage.(prompt := reply.promptTokens);
      usage := usage.(completion := reply.tokens);
      if |reply.chatDeltas| > 0 {
        allChatDeltas := allChatDeltas + reply.chatDeltas;
      }
      usage := usage.(chatDeltas := reply.chatDeltas);

      var completeRunes := TakeCompleteRunes();
      assert View() == st.(
        partialRune := partialRune,
        usage := Usage(reply.promptTokens, reply.tokens, reply.chatDeltas),
        allChatDeltas := st.allChatDeltas + reply.chatDeltas);
      if |completeRunes| > 0 {
        TokenCallback(completeRunes);
        ss := ss + completeRunes;
      }
      if |msg| == 0 {
        TokenCallback([]);
      }
      usage := usage.(chatDeltas := []);
    }
  }

  // PredictStream: one callback after another, in the order of the replies.
  method StreamPredict(replyPrefix: seq<byte>, promptTokens: int, replies: seq<Reply>, countUsage: bool)
    returns (response: seq<byte>, usage: Usage, deltas: seq<ChatDelta>, calls: seq<Call>)
    ensures var st := Run(replyPrefix, promptTokens, replies, countUsage);
            response == st.ss && usage == st.usage && deltas == st.allChatDeltas && calls == st.calls
  {
    var cb := new StreamCallback(replyPrefix, promptTokens, countUsage);
    for i := 0 to |replies|
      invariant cb.countUsage == countUsage
      invariant cb.View() == Run(replyPrefix, promptTokens, replies[..i], countUsage)
    {
      cb.OnReply(replies[i]);
      assert replies[..i + 1][..i] == replies[..i];
    }
    assert replies[..|replies|] == replies;
    return cb.ss, cb.usage, cb.allChatDeltas, cb.calls;
  }

  // The non-streaming branch, for the bytes the backend produced.
  function PredictResponse(replyPrefix: seq<byte>, message: seq<byte>): seq<byte> {
    replyPrefix + message
  }

  // ---------- Properties of whole streams ----------

  function Bytes(replies: seq<Reply>): seq<byte> {
    if replies == [] then [] else Bytes(replies[..|replies| - 1]) + replies[|replies| - 1].message
  }

  function Deltas(replies: seq<Reply>): seq<ChatDelta> {
    if replies == [] then [] else Deltas(replies[..|replies| - 1]) + replies[|replies| - 1].chatDeltas
  }

  function Tokens(calls: seq<Call>): seq<byte> {
    if calls == [] then [] else Tokens(calls[..|calls| - 1]) + calls[|calls| - 1].token
  }

  lemma TokensOfOneMore(calls: seq<Call>, call: Call)
    ensures Tokens(calls + [call]) == Tokens(calls) + call.token
  {
    assert (calls + [call])[..|calls|] == calls;
  }

  // Cutting at n and then the rest at m is cutting at n + m.
  lemma Recut(all: seq<byte>, n: nat, more: seq<byte>, m: nat)
    requires n <= |all| && m <= |all[n..] + more|
    ensures (all + more)[..n + m] == all[..n] + (all[n..] + more)[..m]
    ensures (all + more)[n + m..] == (all[n..] + more)[m..]
  {
    assert all + more == all[..n] + (all[n..] + more);
  }

  // The stream has produced the first n of the bytes received, after the prefix, and carries the rest.
  ghost predicate CutAt(st: State, prefix: seq<byte>, all: seq<byte>, n: nat) {
    && n <= |all|
    && st.ss == all[..n]
    && st.partialRune == all[n..]
    && Tokens(st.calls) == prefix + st.ss
  }

  ghost predicate Reassembled(st: State, prefix: seq<byte>, all: seq<byte>) {
    CutAt(st, prefix, all, TextLength(all))
  }

  lemma StartReassembled(prefix: seq<byte>, prompt: int, countUsage: bool)
    ensures Reassembled(Start(prefix, prompt, countUsage), prefix, [])
  {
    var st := Start(prefix, prompt, countUsage);
    if prefix != [] {
      TokensOfOneMore([], st.calls[0]);
      assert st.calls == [] + [st.calls[0]];
    }
  }

  // The same without knowing where the cuts come from.
  lemma CutMoves(st: State, st': State, message: seq<byte>, prefix: seq<byte>, all: seq<byte>, n: nat, m: nat)
    requires CutAt(st, prefix, all, n)
    requires var bytes := st.partialRune + message;
             && m <= |bytes| && st'.ss == st.ss + bytes[..m] && st'.partialRune == bytes[m..]
             && Tokens(st'.calls) == Tokens(st.calls) + bytes[..m]
    ensures CutAt(st', prefix, all + message, n + m)
  {
    Recut(all, n, message, m);
    var bytes := st.partialRune + message;
    assert prefix + st.ss + bytes[..m] == prefix + (st.ss + bytes[..m]);
  }

  lemma ReplyReassembled(st: State, reply: Reply, countUsage: bool, prefix: seq<byte>, all: seq<byte>)
    requires Reassembled(st, prefix, all)
    ensures Reassembled(AfterReply(st, reply, countUsage), prefix, all + reply.message)
  {
    var n, m := TextLength(all), TextLength(st.partialRune + reply.message);
    ReplyTokens(st, reply, countUsage);
    CutMoves(st, AfterReply(st, reply, countUsage), reply.message, prefix, all, n, m);
    ConsumptionResumes(all, reply.message);
  }

  // The state after any stream is a function of the bytes alone.
  lemma {:induction false} RunState(prefix: seq<byte>, prompt: int, replies: seq<Reply>, countUsage: bool)
    ensures Reassembled(Run(prefix, prompt, replies, countUsage), prefix, Bytes(replies))
  {
    if replies == [] {
      StartReassembled(prefix, prompt, countUsage);
    } else {
      var front, reply := replies[..|replies| - 1], replies[|replies| - 1];
      RunState(prefix, prompt, front, countUsage);
      ReplyReassembled(Run(prefix, prompt, front, countUsage), reply, countUsage, prefix, Bytes(front));
    }
  }

  /** The response carries the deltas of every reply, in order. */
  lemma {:induction false} DeltasAccumulate(prefix: seq<byte>, prompt: int, replies: seq<Reply>, countUsage: bool)
    ensures Run(prefix, prompt, replies, countUsage).allChatDeltas == Deltas(replies)
  {
    if replies != [] {
      DeltasAccumulate(prefix, prompt, replies[..|replies| - 1], countUsage);
    }
  }

  lemma ReplyTokens(st: State, reply: Reply, countUsage: bool)
    ensures var st' := AfterReply(st, reply, countUsage);
            var bytes := st.partialRune + reply.message;
            && st'.ss == st.ss + bytes[..TextLength(bytes)]
            && st'.partialRune == bytes[TextLength(bytes)..]
            && Tokens(st'.calls) == Tokens(st.calls) + bytes[..TextLength(bytes)]
  {
    var bytes := st.partialRune + reply.message;
    var n := TextLength(bytes);
    var st1 := st.(
      partialRune := bytes[n..],
      usage := Usage(reply.promptTokens, reply.tokens, reply.chatDeltas),
      allChatDeltas := st.allChatDeltas + reply.chatDeltas);
    var text := Notify(st1, bytes[..n], countUsage);
    TokensOfOneMore(st1.calls, text.calls[|st.calls|]);
    var st2 := if n > 0 then text.(ss := st.ss + bytes[..n]) else st1;
    var empty := Notify(st2, [], countUsage);
    TokensOfOneMore(st2.calls, empty.calls[|st2.calls|]);
  }

  /** Nothing is lost or reordered, and the emitted text is the longest prefix of the bytes
      received that encodes scalar values other than U+FFFD. */
  lemma EmitsLongestTextPrefix(prefix: seq<byte>, prompt: int, replies: seq<Reply>, countUsage: bool)
    ensures var st := Run(prefix, prompt, replies, countUsage);
            && st.ss + st.partialRune == Bytes(replies)
            && IsLongestTextPrefix(st.ss, Bytes(replies))
            && Tokens(st.calls) == prefix + st.ss
  {
    RunState(prefix, prompt, replies, countUsage);
    var all := Bytes(replies);
    ConsumesLongestTextPrefix(all);
    CutInside(all, [], TextLength(all));
  }

  /** Two ways of cutting the same bytes into replies give the same text and the same carry. */
  lemma CutsDoNotMatter(prefix: seq<byte>, prompt: int, prompt': int,
                        replies: seq<Reply>, replies': seq<Reply>, countUsage: bool, countUsage': bool)
    requires Bytes(replies) == Bytes(replies')
    ensures var st := Run(prefix, prompt, replies, countUsage);
            var st' := Run(prefix, prompt', replies', countUsage');
            && st.ss == st'.ss && st.partialRune == st'.partialRune
            && Tokens(st.calls) == Tokens(st'.calls)
  {
    RunState(prefix, prompt, replies, countUsage);
    RunState(prefix, prompt', replies', countUsage');
  }

  /** The callback sees what the non-streaming branch returns for the same bytes exactly when
      those bytes are a text, and that is also when the carry buffer ends empty. */
  lemma StreamingMatchesPredict(prefix: seq<byte>, prompt: int, replies: seq<Reply>, countUsage: bool)
    ensures var st := Run(prefix, prompt, replies, countUsage);
            && (Tokens(st.calls) == PredictResponse(prefix, Bytes(replies)) <==> IsText(Bytes(replies)))
            && (st.partialRune == [] <==> IsText(Bytes(replies)))
  {
    RunState(prefix, prompt, replies, countUsage);
    var st, all := Run(prefix, prompt, replies, countUsage), Bytes(replies);
    IsTextIffConsumedWhole(all);
    if TextLength(all) == |all| {
      assert all[..|all|] == all;
    } else {
      assert |prefix + st.ss| < |prefix + all|;
    }
  }

  /** The streamed LLMResponse.Response leaves the reply prefix out, so it equals the
      non-streaming response only without a prefix. */
  lemma StreamedResponseMatchesPredict(prefix: seq<byte>, prompt: int, replies: seq<Reply>, countUsage: bool)
    ensures Run(prefix, prompt, replies, countUsage).ss == PredictResponse(prefix, Bytes(replies))
            <==> prefix == [] && IsText(Bytes(replies))
  {
    RunState(prefix, prompt, replies, countUsage);
    var st, all := Run(prefix, prompt, replies, countUsage), Bytes(replies);
    IsTextIffConsumedWhole(all);
    if st.ss == prefix + all {
      assert |st.ss| == |prefix| + |all|;
    }
    if prefix == [] && TextLength(all) == |all| {
      assert all[..|all|] == all && prefix + all == all;
    }
  }

  function CallUsage(reply: Reply, counted: bool): Usage {
    Usage(reply.promptTokens, reply.tokens + (if counted then 1 else 0), reply.chatDeltas)
  }

  // A reply with a message makes a call if it releases text; one without always makes one.
  lemma MessageCalls(st: State, reply: Reply, countUsage: bool)
    requires reply.message != []
    ensures var st' := AfterReply(st, reply, countUsage);
            var text := (st.partialRune + reply.message)[..TextLength(st.partialRune + reply.message)];
            && st'.calls == st.calls + (if text == [] then [] else [Call(text, CallUsage(reply, countUsage))])
            && st'.ss == st.ss + text
            && st'.usage == CallUsage(reply, countUsage && text != []).(chatDeltas := [])
  {}

  lemma EmptyMessageCalls(st: State, reply: Reply, countUsage: bool)
    requires reply.message == [] && TextLength(st.partialRune) == 0
    ensures var st' := AfterReply(st, reply, countUsage);
            && st'.calls == st.calls + [Call([], CallUsage(reply, countUsage))]
            && st'.ss == st.ss
            && st'.usage == CallUsage(reply, countUsage).(chatDeltas := [])
  {
    assert st.partialRune + reply.message == st.partialRune;
  }

  /** A reply triggers at most one callback; with the usage flag set that callback reports one
      completion token more than the reply carries, and so does the usage record left behind.  No reply
      leaves its deltas behind. */
  lemma OneCallPerReply(prefix: seq<byte>, prompt: int, replies: seq<Reply>, reply: Reply, countUsage: bool)
    ensures var st := Run(prefix, prompt, replies, countUsage);
            var st' := AfterReply(st, reply, countUsage);
            && (st'.calls == st.calls ||
                (|st'.calls| == |st.calls| + 1 && st'.calls[..|st.calls|] == st.calls &&
                 var call := st'.calls[|st.calls|];
                 call.usage == Usage(reply.promptTokens, reply.tokens + (if countUsage then 1 else 0), reply.chatDeltas)))
            && (reply.message == [] ==> |st'.calls| == |st.calls| + 1 && st'.calls[|st.calls|].token == [])
            && (st'.ss != st.ss ==> |st'.calls| == |st.calls| + 1 && st'.ss == st.ss + st'.calls[|st.calls|].token)
            && st'.usage == Usage(reply.promptTokens,
                                  reply.tokens + (if countUsage && |st'.calls| > |st.calls| then 1 else 0), [])
  {
    if reply.message == [] {
      RunState(prefix, prompt, replies, countUsage);
      CarryIsStuck(Bytes(replies));
      EmptyMessageCalls(Run(prefix, prompt, replies, countUsage), reply, countUsage);
    } else {
      MessageCalls(Run(prefix, prompt, replies, countUsage), reply, countUsage);
    }
  }

  // The part of `message` after `before`, and what `before` has left, that makes the longest text
  // prefix longer.
  function NewText(before: seq<byte>, message: seq<byte>): seq<byte> {
    var all := before + message;
    if TextLength(before) <= TextLength(all) then all[TextLength(before)..TextLength(all)] else []
  }

  // The calls that a reply after the bytes `before` calls for: one for new text, or for an empty message.
  function DueCall(before: seq<byte>, reply: Reply, countUsage: bool): seq<Call> {
    var text := NewText(before, reply.message);
    if text == [] && reply.message != [] then []
    else [Call(text, Usage(reply.promptTokens, reply.tokens + (if countUsage then 1 else 0), reply.chatDeltas))]
  }

  function DueCalls(replies: seq<Reply>, countUsage: bool): seq<Call> {
    if replies == [] then []
    else
      var front := replies[..|replies| - 1];
      DueCalls(front, countUsage) + DueCall(Bytes(front), replies[|replies| - 1], countUsage)
  }

  lemma NewTextIsReleased(before: seq<byte>, message: seq<byte>)
    ensures var bytes := before[TextLength(before)..] + message;
            NewText(before, message) == bytes[..TextLength(bytes)]
  {
    ConsumptionResumes(before, message);
    Between(before, message, TextLength(before), TextLength(before[TextLength(before)..] + message));
  }

  lemma Between(before: seq<byte>, message: seq<byte>, n: nat, m: nat)
    requires n <= |before| && m <= |before[n..] + message|
    ensures (before + message)[n..n + m] == (before[n..] + message)[..m]
  {
    assert before + message == before[..n] + (before[n..] + message);
  }

  lemma ReplyCalls(st: State, before: seq<byte>, reply: Reply, countUsage: bool)
    requires st.partialRune == before[TextLength(before)..]
    ensures AfterReply(st, reply, countUsage).calls == st.calls + DueCall(before, reply, countUsage)
  {
    NewTextIsReleased(before, reply.message);
    if reply.message == [] {
      CarryIsStuck(before);
      assert st.partialRune + reply.message == st.partialRune;
      EmptyMessageCalls(st, reply, countUsage);
    } else {
      MessageCalls(st, reply, countUsage);
    }
  }

  lemma CallsAfterReply(first: seq<Call>, replies: seq<Reply>, countUsage: bool)
    requires replies != []
    ensures var n := |replies| - 1;
            first + DueCalls(replies, countUsage)
            == (first + DueCalls(replies[..n], countUsage)) + DueCall(Bytes(replies[..n]), replies[n], countUsage)
  {}

  /** The caller is called exactly so often: once for the reply prefix, if there is one, and then as the
      replies call for it. Without a prefix and replies nothing is called and nothing counted. */
  lemma {:induction false} CallsAreDue(prefix: seq<byte>, prompt: int, replies: seq<Reply>, countUsage: bool)
    ensures var st := Run(prefix, prompt, replies, countUsage);
            var first := if prefix == [] then [] else [Call(prefix, Usage(prompt, if countUsage then 1 else 0, []))];
            && st.calls == first + DueCalls(replies, countUsage)
            && (replies == [] ==> st.usage == Usage(prompt, if prefix != [] && countUsage then 1 else 0, []))
  {
    var first := if prefix == [] then [] else [Call(prefix, Usage(prompt, if countUsage then 1 else 0, []))];
    if replies == [] {
      assert Start(prefix, prompt, countUsage).calls == first;
    } else {
      var n := |replies| - 1;
      CallsAreDue(prefix, prompt, replies[..n], countUsage);
      RunState(prefix, prompt, replies[..n], countUsage);
      ReplyCalls(Run(prefix, prompt, replies[..n], countUsage), Bytes(replies[..n]), replies[n], countUsage);
      CallsAfterReply(first, replies, countUsage);
    }
  }

  lemma WaitingNeedsBeginning(carry: seq<byte>, more: seq<byte>) returns (c: int)
    requires TextLength(carry) == 0 && TextLength(carry + more) > 0
    ensures IsTextRune(c) && carry < EncodeRune(c)
  {
    var p := carry + more;
    EncodeAfterDecode(p);
    c := DecodeRune(p).rune;
    var s := EncodeRune(c);
    if |s| <= |carry| {
      assert carry == s + carry[|s|..];
      TextLengthStep(c, carry[|s|..]);
      assert false;
    }
  }

  lemma BeginningIsCompleted(carry: seq<byte>, c: int) returns (more: seq<byte>)
    requires IsTextRune(c) && carry < EncodeRune(c)
    ensures TextLength(carry + more) > 0
  {
    more := EncodeRune(c)[|carry|..];
    assert carry + more == EncodeRune(c) + [];
    TextLengthStep(c, []);
  }

  /** Waiting for more bytes helps exactly when the carry is a proper beginning of a text rune;
      anything else, a lone U+FFFD included, silences the stream for good. */
  lemma WaitingHelpsIff(carry: seq<byte>)
    requires TextLength(carry) == 0
    ensures (exists more :: TextLength(carry + more) > 0)
            <==> exists c | IsTextRune(c) :: carry < EncodeRune(c)
  {
    if more :| TextLength(carry + more) > 0 {
      var c := WaitingNeedsBeginning(carry, more);
    }
    if c :| IsTextRune(c) && carry < EncodeRune(c) {
      var more := BeginningIsCompleted(carry, c);
    }
  }

  /** Two such carries: a complete U+FFFD, and a byte that starts no rune. */
  lemma HopelessCarries(more: seq<byte>)
    ensures TextLength([0xEF, 0xBF, 0xBD] + more) == 0
    ensures TextLength([0xFF] + more) == 0
  {
    var p := [0xEF, 0xBF, 0xBD] + more;
    assert p[0] == 0xEF && p[1] == 0xBF && p[2] == 0xBD;
    assert Payload3(0xEF, 0xBF, 0xBD) == RUNE_ERROR;
    assert ([0xFF] + more)[0] == 0xFF;
  }

  /** A stream that begins with U+FFFD never emits anything, however it goes on. */
  lemma ReplacementCharacterSilencesStream(prefix: seq<byte>, prompt: int, replies: seq<Reply>, countUsage: bool)
    requires [0xEF, 0xBF, 0xBD] <= Bytes(replies)
    ensures Run(prefix, prompt, replies, countUsage).ss == []
  {
    HopelessStart(Bytes(replies));
    RunState(prefix, prompt, replies, countUsage);
  }

  lemma HopelessStart(all: seq<byte>)
    requires [0xEF, 0xBF, 0xBD] <= all
    ensures TextLength(all) == 0
  {
    assert all == [0xEF, 0xBF, 0xBD] + all[3..];
    HopelessCarries(all[3..]);
  }

  /** With the prefix "a" and the message "b" the callback is given "ab", as the non-streaming branch
      returns it, but the streamed response is "b". */
  lemma PrefixIsLeftOut(prompt: int, countUsage: bool)
    ensures var st := Run([0x61], prompt, [Reply([0x62], 0, 0, [])], countUsage);
            && Tokens(st.calls) == PredictResponse([0x61], [0x62]) == [0x61, 0x62]
            && st.ss == [0x62]
  {
    var replies := [Reply([0x62], 0, 0, [])];
    RunState([0x61], prompt, replies, countUsage);
    assert replies[..0] == [] && Bytes([]) == [];
    assert Bytes(replies) == [0x62];
    DecodeAfterEncode(0x62, []);
    assert [0x62] + [] == [0x62];
    TextLengthStep(0x62, []);
    assert [0x62][..1] == [0x62];
  }
}
