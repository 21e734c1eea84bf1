/** The tool-calling loop: call the upstream, run the tools it asks for, append both to the transcript, and
    repeat until it asks for none. */
module ToolLoop {
  import opened Options
  import opened Text

  datatype ToolCall = ToolCall(id: string, name: string, arguments: string)

  datatype Message = Message(role: string, content: string, name: string, calls: seq<ToolCall>, callId: string)

  /** The first choice of a response, if it has any. */
  datatype Response = Response(choice: Option<Message>)

  datatype Result =
    | UpstreamFailed
    | Answer(resp: Response)
    | TooManyIterations(last: Response)

  /** Names for calls that come without an id: `callName(iteration, position)`. */
  datatype Env = Env(
    upstream: (nat, seq<Message>) -> Option<Response>,   // the reply to a transcript, or an error
    run: (nat, nat, ToolCall) -> string,                 // what a tool call returns there, errors included
    callName: (nat, nat) -> string)

  function Assistant(m: Message): Message {
    Message(if Trim(m.role) == "" then "assistant" else Trim(m.role), m.content, m.name, m.calls, "")
  }

  function ToolMessage(env: Env, iter: nat, call: ToolCall, position: nat): Message {
    Message("tool", env.run(iter, position, call), call.name, [],
            if Trim(call.id) == "" then env.callName(iter, position) else Trim(call.id))
  }

  /** The answers to the calls of one assistant message, in order. */
  function Answers(env: Env, iter: nat, calls: seq<ToolCall>): (r: seq<Message>)
    ensures |r| == |calls|
  {
    seq(|calls|, i requires 0 <= i < |calls| => ToolMessage(env, iter, calls[i], i + 1))
  }

  lemma AnswerAt(env: Env, iter: nat, calls: seq<ToolCall>, i: nat)
    requires i < |calls|
    ensures Answers(env, iter, calls)[i] == ToolMessage(env, iter, calls[i], i + 1)
  {
    hide ToolMessage;
  }

  /** One completed iteration of the transcript. */
  function Exchange(env: Env, iter: nat, m: Message): (r: seq<Message>)
    ensures |r| == 1 + |m.calls|
  {
    [Assistant(m)] + Answers(env, iter, m.calls)
  }

  /** The transcript after the first `n` of `replies`. */
  function Transcript(env: Env, original: seq<Message>, replies: seq<Message>, n: nat): seq<Message>
    requires n <= |replies|
  {
    if n == 0 then original
    else Transcript(env, original, replies, n - 1) + Exchange(env, n, replies[n - 1])
  }

  function CallsOf(replies: seq<Message>, n: nat): nat
    requires n <= |replies|
  {
    if n == 0 then 0 else CallsOf(replies, n - 1) + |replies[n - 1].calls|
  }

  /** Every reply asked for tools, and was the upstream's reply to exactly the transcript before it. */
  ghost predicate Replied(env: Env, original: seq<Message>, replies: seq<Message>) {
    forall k: nat :: k < |replies| ==> RepliedAt(env, original, replies, k)
  }

  ghost predicate RepliedAt(env: Env, original: seq<Message>, replies: seq<Message>, k: nat)
    requires k < |replies|
  {
    && replies[k].calls != []
    && env.upstream(k + 1, Transcript(env, original, replies, k)) == Some(Response(Some(replies[k])))
  }

  function Limit(configured: int): (n: nat)
    ensures n >= 1
  {
    if configured <= 0 then 4 else configured
  }

  /** How a loop of `iters` iterations came to its result. */
  ghost predicate Concluded(env: Env, original: seq<Message>, replies: seq<Message>, limit: nat,
                            r: Result, iters: nat)
  {
    var n := |replies|;
    match r
    case UpstreamFailed =>
      iters == n < limit && env.upstream(n + 1, Transcript(env, original, replies, n)) == None
    case Answer(resp) =>
      && iters == n + 1 <= limit
      && env.upstream(n + 1, Transcript(env, original, replies, n)) == Some(resp)
      && (resp.choice.None? || resp.choice.value.calls == [])
    case TooManyIterations(last) =>
      iters == n == limit >= 1 && last == Response(Some(replies[n - 1]))
  }

  lemma LimitIs(configured: int)
    ensures configured > 0 ==> Limit(configured) == configured
    ensures configured <= 0 ==> Limit(configured) == 4
  {
  }

  // ----- Prefixes of a run

  lemma {:induction false} SameTranscript(env: Env, original: seq<Message>, replies: seq<Message>, m: Message, n: nat)
    requires n <= |replies|
    ensures Transcript(env, original, replies + [m], n) == Transcript(env, original, replies, n)
    ensures CallsOf(replies + [m], n) == CallsOf(replies, n)
  {
    hide Exchange;
    if n > 0 {
      SameTranscript(env, original, replies, m, n - 1);
    }
  }

  lemma OneMoreReply(env: Env, original: seq<Message>, replies: seq<Message>, m: Message)
    requires Replied(env, original, replies) && m.calls != []
    requires env.upstream(|replies| + 1, Transcript(env, original, replies, |replies|)) == Some(Response(Some(m)))
    ensures Replied(env, original, replies + [m])
    ensures Transcript(env, original, replies + [m], |replies| + 1)
         == Transcript(env, original, replies, |replies|) + Exchange(env, |replies| + 1, m)
    ensures CallsOf(replies + [m], |replies| + 1) == CallsOf(replies, |replies|) + |m.calls|
  {
    hide Exchange;
    forall k: nat | k < |replies| + 1 ensures RepliedAt(env, original, replies + [m], k) {
      SameTranscript(env, original, replies, m, k);
      if k < |replies| {
        assert RepliedAt(env, original, replies, k);
      }
    }
    SameTranscript(env, original, replies, m, |replies|);
  }

  // ----- The loops

  /** Run the calls of one assistant message, appending one tool message for each. */
  method RunCalls(env: Env, iter: nat, working: seq<Message>, m: Message, total: nat)
    returns (working': seq<Message>, total': nat)
    ensures working' == working + Answers(env, iter, m.calls) && total' == total + |m.calls|
  {
    hide ToolMessage, Answers;
    working', total' := working, total;
    ghost var answers: seq<Message> := [];
    for idx := 0 to |m.calls|
      invariant answers == Answers(env, iter, m.calls)[..idx]
      invariant working' == working + answers && total' == total + idx
    {
      var answer := ToolMessage(env, iter, m.calls[idx], idx + 1);
      AnswerAt(env, iter, m.calls, idx);
      working' := working' + [answer];
      answers := answers + [answer];
      total' := total' + 1;
    }
  }

  lemma StartOfLoop(env: Env, original: seq<Message>)
    ensures Replied(env, original, []) && Transcript(env, original, [], 0) == original && CallsOf([], 0) == 0
  {
  }

  lemma OneExchange(env: Env, iter: nat, m: Message, before: seq<Message>)
    ensures before + [Assistant(m)] + Answers(env, iter, m.calls) == before + Exchange(env, iter, m)
  {
    hide Answers, Assistant;
  }

  lemma EndsByFailure(env: Env, original: seq<Message>, replies: seq<Message>, limit: nat)
    requires |replies| < limit && env.upstream(|replies| + 1, Transcript(env, original, replies, |replies|)) == None
    ensures Concluded(env, original, replies, limit, UpstreamFailed, |replies|)
  {
    hide Transcript;
  }

  lemma EndsByAnswer(env: Env, original: seq<Message>, replies: seq<Message>, limit: nat, resp: Response)
    requires |replies| < limit
    requires env.upstream(|replies| + 1, Transcript(env, original, replies, |replies|)) == Some(resp)
    ensures resp.choice.None? || |resp.choice.value.calls| == 0 ==>
              Concluded(env, original, replies, limit, Answer(resp), |replies| + 1)
  {
    hide Transcript;
  }

  lemma EndsByLimit(env: Env, original: seq<Message>, replies: seq<Message>, limit: nat)
    requires |replies| == limit >= 1
    ensures Concluded(env, original, replies, limit, TooManyIterations(Response(Some(replies[limit - 1]))), limit)
  {
    hide Transcript;
  }

  /** `chatWithTools`, once the tools of the request are known. */
  method ChatWithTools(env: Env, original: seq<Message>, configured: int)
    returns (r: Result, totalCalls: nat, iters: nat, ghost replies: seq<Message>)
    ensures Replied(env, original, replies)
    ensures Concluded(env, original, replies, Limit(configured), r, iters)
    ensures totalCalls == CallsOf(replies, |replies|)
    ensures iters <= Limit(configured) && (r.UpstreamFailed? ==> iters < Limit(configured))
    ensures r.Answer? ==> r.resp.choice.None? || r.resp.choice.value.calls == []
    ensures r.TooManyIterations? ==> iters == Limit(configured) <= totalCalls
    ensures configured > 0 ==> iters <= configured && (r.TooManyIterations? ==> iters == configured)
    ensures configured <= 0 ==> iters <= 4 && (r.TooManyIterations? ==> iters == 4)
  {
    hide *;
    LimitIs(configured);
    StartOfLoop(env, original);
    var maxIters := Limit(configured);
    var working := original;
    totalCalls, replies := 0, [];
    var last := Response(None);
    var iter := 1;
    while iter <= maxIters
      invariant 1 <= iter <= maxIters + 1 && |replies| == iter - 1
      invariant Replied(env, original, replies)
      invariant working == Transcript(env, original, replies, |replies|)
      invariant totalCalls == CallsOf(replies, |replies|)
      invariant iter > 1 ==> last == Response(Some(replies[iter - 2]))
    {
      var reply := env.upstream(iter, working);
      if reply.None? {
        EndsByFailure(env, original, replies, maxIters);
        return UpstreamFailed, totalCalls, iter - 1, replies;
      }
      last := reply.value;
      EndsByAnswer(env, original, replies, maxIters, last);
      if last.choice.None? {
        return Answer(last), totalCalls, iter, replies;
      }
      var m := last.choice.value;
      if |m.calls| == 0 {
        return Answer(last), totalCalls, iter, replies;
      }
      OneMoreReply(env, original, replies, m);
      OneExchange(env, iter, m, working);
      working := working + [Assistant(m)];
      working, totalCalls := RunCalls(env, iter, working, m, totalCalls);
      replies := replies + [m];
      iter := iter + 1;
    }
    EndsByLimit(env, original, replies, maxIters);
    EveryIterationRunsTools(env, original, replies, maxIters);
    r, iters := TooManyIterations(last), maxIters;
  }

  // ----- The shape of the transcript

  /** The transcript only grows: what was there stays in front. */
  lemma {:induction false} TranscriptGrows(env: Env, original: seq<Message>, replies: seq<Message>, i: nat, n: nat)
    requires i <= n <= |replies|
    ensures Transcript(env, original, replies, i) <= Transcript(env, original, replies, n)
    decreases n
  {
    hide Exchange;
    if i < n {
      TranscriptGrows(env, original, replies, i, n - 1);
    }
  }

  /** Right after the transcript of `k` iterations come the assistant message of the next one and the
      answers to its calls, one each and in order; and nothing else is ever added. */
  lemma {:induction false} TranscriptShape(env: Env, original: seq<Message>, replies: seq<Message>, n: nat, k: nat)
    requires k < n <= |replies|
    ensures var t := Transcript(env, original, replies, n);
            var at := |original| + k + CallsOf(replies, k);
            && original <= t && |t| == |original| + n + CallsOf(replies, n)
            && at + |replies[k].calls| < |t|
            && t[at] == Assistant(replies[k])
            && forall i :: 0 <= i < |replies[k].calls| ==>
                 t[at + 1 + i] == ToolMessage(env, k + 1, replies[k].calls[i], i + 1)
  {
    hide *;
    TranscriptGrows(env, original, replies, 0, n);
    TranscriptGrows(env, original, replies, k + 1, n);
    TranscriptLength(env, original, replies, n);
    TranscriptLength(env, original, replies, k);
    TranscriptStep(env, original, replies, k);
    ExchangeParts(env, k + 1, replies[k]);
  }

  /** What those messages carry: the upstream's own words and calls, and for each call what the tool returned
      there, under the call's id or, without one, a name made up for its iteration and position. */
  lemma TranscriptFields(env: Env, original: seq<Message>, replies: seq<Message>, n: nat, k: nat, i: nat)
    requires k < n <= |replies| && i < |replies[k].calls|
    ensures var t := Transcript(env, original, replies, n);
            var at := |original| + k + CallsOf(replies, k);
            var reply, call := replies[k], replies[k].calls[i];
            && at + 1 + i < |t|
            && t[at].content == reply.content && t[at].name == reply.name && t[at].calls == reply.calls
            && (t[at].role == Trim(reply.role) != "" || (Blank(reply.role) && t[at].role == "assistant"))
            && t[at + 1 + i].role == "tool" && t[at + 1 + i].name == call.name && t[at + 1 + i].calls == []
            && t[at + 1 + i].content == env.run(k + 1, i + 1, call)
            && t[at + 1 + i].callId == if Blank(call.id) then env.callName(k + 1, i + 1) else Trim(call.id)
  {
    AssistantFields(replies[k]);
    ToolFields(env, k + 1, replies[k].calls[i], i + 1);
    hide *;
    TranscriptShape(env, original, replies, n, k);
  }

  lemma AssistantFields(m: Message)
    ensures Assistant(m).content == m.content && Assistant(m).name == m.name && Assistant(m).calls == m.calls
    ensures Assistant(m).role == Trim(m.role) != "" || (Blank(m.role) && Assistant(m).role == "assistant")
  {
    hide Trim;
  }

  lemma ToolFields(env: Env, iter: nat, call: ToolCall, position: nat)
    ensures var m := ToolMessage(env, iter, call, position);
            && m.role == "tool" && m.name == call.name && m.calls == []
            && m.content == env.run(iter, position, call)
            && m.callId == if Blank(call.id) then env.callName(iter, position) else Trim(call.id)
  {
    hide Trim;
  }

  lemma TranscriptStep(env: Env, original: seq<Message>, replies: seq<Message>, k: nat)
    requires k < |replies|
    ensures Transcript(env, original, replies, k + 1)
         == Transcript(env, original, replies, k) + Exchange(env, k + 1, replies[k])
    ensures Transcript(env, original, replies, 0) == original
  {
    hide Exchange;
  }

  lemma ExchangeParts(env: Env, iter: nat, m: Message)
    ensures Exchange(env, iter, m)[0] == Assistant(m)
    ensures forall i :: 0 <= i < |m.calls| ==>
              Exchange(env, iter, m)[1 + i] == ToolMessage(env, iter, m.calls[i], i + 1)
  {
    hide ToolMessage, Assistant, Answers;
    var answers := Answers(env, iter, m.calls);
    forall i | 0 <= i < |m.calls| ensures Exchange(env, iter, m)[1 + i] == ToolMessage(env, iter, m.calls[i], i + 1) {
      AnswerAt(env, iter, m.calls, i);
    }
  }

  lemma {:induction false} TranscriptLength(env: Env, original: seq<Message>, replies: seq<Message>, n: nat)
    requires n <= |replies|
    ensures |Transcript(env, original, replies, n)| == |original| + n + CallsOf(replies, n)
  {
    hide Exchange;
    if n > 0 {
      TranscriptLength(env, original, replies, n - 1);
    }
  }

  /** Every finished iteration ran at least one tool. */
  lemma {:induction false} EveryIterationRunsTools(env: Env, original: seq<Message>, replies: seq<Message>, n: nat)
    requires Replied(env, original, replies) && n <= |replies|
    ensures CallsOf(replies, n) >= n
  {
    hide Transcript;
    if n > 0 {
      EveryIterationRunsTools(env, original, replies, n - 1);
      assert RepliedAt(env, original, replies, n - 1);
    }
  }
}
