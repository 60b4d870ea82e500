/** What a conversation is, when one is well formed, and the checks a run's input
    passes. */
module Conversation {
  import opened Base

  datatype Role = System | User | Assistant | Tool

  /** JSON text, and whether it is an object. */
  datatype Json = Json(text: string, isObject: bool)

  datatype ToolCall = ToolCall(id: string, name: string, arguments: Json)

  datatype Message = Message(role: Role, content: string, toolCalls: seq<ToolCall>, toolCallId: Option<string>) {
    predicate Calls(id: string) {
      exists a | 0 <= a < |toolCalls| :: toolCalls[a].id == id
    }
  }

  function UserSays(text: string): Message {
    Message(User, text, [], None)
  }

  function AssistantSays(text: string): Message {
    Message(Assistant, text, [], None)
  }

  function ToolResult(id: string, text: string): Message {
    Message(Tool, text, [], Some(id))
  }

  datatype RunOptions = RunOptions(
    prompt: Option<string>,
    messages: Option<seq<Message>>,
    sessionId: Option<string>,
    system: Option<string>,
    model: Option<string>,
    maxTokens: Option<nat>,
    timeoutMs: Option<nat>)

  /** Why an input is refused. */
  datatype Invalid =
    | BadTimeout
    | BadMaxTokens
    | SessionAndMessages
    | SessionNeedsPrompt
    | TooManyMessages
    | NothingToSend
    | StrayResult
    | UnansweredOrUnexpected
    | OnlyAssistantsCall
    | BadCall
    | Unanswered
    | TooLarge

  const MAX_INPUT_BYTES := 1_048_576
  const USIZE_MAX := 0xFFFF_FFFF_FFFF_FFFF

  // ---------- sizes ----------

  /** How many bytes a character takes in UTF-8. */
  function Width(c: char): nat {
    if c as int < 0x80 then 1 else if c as int < 0x800 then 2 else if c as int < 0x10000 then 3 else 4
  }

  function Length(text: string): nat {
    if text == "" then 0 else Length(text[..|text| - 1]) + Width(text[|text| - 1])
  }

  function OptLength(text: Option<string>): nat {
    if text.Some? then Length(text.value) else 0
  }

  function CallSize(call: ToolCall): nat {
    Length(call.id) + Length(call.name) + Length(call.arguments.text)
  }

  function CallsSize(calls: seq<ToolCall>): nat {
    if calls == [] then 0 else CallsSize(calls[..|calls| - 1]) + CallSize(calls[|calls| - 1])
  }

  function MessageSize(m: Message): nat {
    Length(m.content) + CallsSize(m.toolCalls) + OptLength(m.toolCallId)
  }

  /** The bytes of the first `n` messages. */
  function Size(ms: seq<Message>, n: nat): nat
    requires n <= |ms|
  {
    if n == 0 then 0 else Size(ms, n - 1) + MessageSize(ms[n - 1])
  }

  /** Addition that stops at the largest machine integer. */
  function SaturatingAdd(a: nat, b: nat): nat {
    if a + b > USIZE_MAX then USIZE_MAX else a + b
  }

  // ---------- well-formed conversations ----------

  /** Message `i` is the latest before `n` that is not a tool result. */
  predicate OpenAt(ms: seq<Message>, i: nat, n: nat)
    requires n <= |ms|
  {
    i < n && ms[i].role != Tool && forall j | i < j < n :: ms[j].role == Tool
  }

  predicate AnsweredBetween(ms: seq<Message>, i: nat, n: nat, id: string)
    requires n <= |ms|
  {
    exists j | i < j < n :: ms[j].toolCallId == Some(id)
  }

  /** Before `n`, the latest message made a call that no result has answered. */
  predicate Outstanding(ms: seq<Message>, n: nat, id: string)
    requires n <= |ms|
  {
    exists i | 0 <= i < n :: OpenAt(ms, i, n) && ms[i].Calls(id) && !AnsweredBetween(ms, i, n, id)
  }

  ghost predicate Settled(ms: seq<Message>, n: nat)
    requires n <= |ms|
  {
    forall id :: !Outstanding(ms, n, id)
  }

  /** A tool result answers a call still outstanding. Any other message comes when
      none is, and only an assistant calls tools. */
  ghost predicate InPlace(ms: seq<Message>, k: nat)
    requires k < |ms|
  {
    if ms[k].role == Tool then
      ms[k].toolCalls == [] && ms[k].toolCallId.Some? && Outstanding(ms, k, ms[k].toolCallId.value)
    else
      ms[k].toolCallId.None? && Settled(ms, k) && (ms[k].toolCalls != [] ==> ms[k].role == Assistant)
  }

  predicate GoodCalls(calls: seq<ToolCall>) {
    forall a | 0 <= a < |calls| :: calls[a].id != "" && calls[a].name != "" && calls[a].arguments.isObject
  }

  function IdsOf(calls: seq<ToolCall>): (ids: seq<string>)
    ensures |ids| == |calls| && forall a | 0 <= a < |calls| :: ids[a] == calls[a].id
  {
    seq(|calls|, a requires 0 <= a < |calls| => calls[a].id)
  }

  /** The ids of all calls of the first `n` messages. */
  function Ids(ms: seq<Message>, n: nat): seq<string>
    requires n <= |ms|
  {
    if n == 0 then [] else Ids(ms, n - 1) + IdsOf(ms[n - 1].toolCalls)
  }

  predicate Distinct(ids: seq<string>) {
    forall i, j | 0 <= i < j < |ids| :: ids[i] != ids[j]
  }

  ghost predicate WellFormedTo(ms: seq<Message>, n: nat)
    requires n <= |ms|
  {
    && (forall k | 0 <= k < n :: InPlace(ms, k) && GoodCalls(ms[k].toolCalls))
    && Distinct(Ids(ms, n))
  }

  /** Every result answers one outstanding call, exactly once; every call is
      answered before the next message that is not a result; no two calls share
      an id. */
  ghost predicate WellFormed(ms: seq<Message>) {
    WellFormedTo(ms, |ms|) && Settled(ms, |ms|)
  }

  predicate Blank(text: Option<string>) {
    text.None? || forall k | 0 <= k < |text.value| :: Whitespace(text.value[k])
  }

  function Given(o: RunOptions): seq<Message> {
    o.messages.GetOr([])
  }

  function BaseSize(o: RunOptions): nat {
    OptLength(o.prompt) + OptLength(o.system) + OptLength(o.model)
  }

  /** Some character of the text is not white space. */
  predicate SaysSomething(text: Option<string>) {
    text.Some? && exists k | 0 <= k < |text.value| :: !Whitespace(text.value[k])
  }

  /** What a run's input must be. */
  ghost predicate Acceptable(o: RunOptions) {
    && (o.timeoutMs.Some? ==> 1 <= o.timeoutMs.value <= 600_000)
    && (o.maxTokens.Some? ==> 1 <= o.maxTokens.value <= 32_768)
    && (o.sessionId.Some? ==> o.messages.None? && SaysSomething(o.prompt))
    && |Given(o)| <= 256
    && (Given(o) == [] ==> SaysSomething(o.prompt))
    && WellFormed(Given(o))
    && BaseSize(o) + Size(Given(o), |Given(o)|) <= 1024 * 1024
  }

  // ---------- the streaming validator ----------

  /** The byte count keeps to the exact sum, up to saturation. */
  predicate CountsTo(bytes: nat, exact: nat) {
    bytes == exact || (bytes == USIZE_MAX && exact > USIZE_MAX)
  }

  lemma CountMore(bytes: nat, exact: nat, more: nat)
    requires CountsTo(bytes, exact)
    ensures CountsTo(SaturatingAdd(bytes, more), exact + more)
  {
  }

  /** `pending` holds the outstanding calls before `n`, and `seen` all ids. */
  ghost predicate Tracks(ms: seq<Message>, n: nat, pending: set<string>, seen: set<string>)
    requires n <= |ms|
  {
    && (forall id :: id in pending <==> Outstanding(ms, n, id))
    && (forall id :: id in seen <==> id in Ids(ms, n))
  }

  /** Message `n` is the first that cannot follow those before it. */
  ghost predicate FirstBad(ms: seq<Message>, n: nat) {
    n < |ms| && WellFormedTo(ms, n) && !WellFormedTo(ms, n + 1)
  }

  /** What each refusal of a message says about it. */
  ghost predicate Blames(ms: seq<Message>, n: nat, error: Invalid)
    requires n < |ms|
  {
    match error
    case StrayResult => ms[n].role == Tool
    case UnansweredOrUnexpected => ms[n].role != Tool && (ms[n].toolCallId.Some? || !Settled(ms, n))
    case OnlyAssistantsCall => ms[n].role != Tool && ms[n].role != Assistant && ms[n].toolCalls != []
    case BadCall => InPlace(ms, n) && ms[n].toolCalls != []
    case _ => false
  }

  /** What a refusal says about the input. */
  ghost predicate Explains(o: RunOptions, error: Invalid) {
    var ms := Given(o);
    match error
    case BadTimeout => o.timeoutMs.Some? && !(1 <= o.timeoutMs.value <= 600_000)
    case BadMaxTokens => o.maxTokens.Some? && !(1 <= o.maxTokens.value <= 32_768)
    case SessionAndMessages => o.sessionId.Some? && o.messages.Some?
    case SessionNeedsPrompt => o.sessionId.Some? && !SaysSomething(o.prompt)
    case TooManyMessages => |ms| > 256
    case NothingToSend => ms == [] && !SaysSomething(o.prompt)
    case Unanswered => WellFormedTo(ms, |ms|) && !Settled(ms, |ms|)
    case TooLarge => WellFormed(ms) && BaseSize(o) + Size(ms, |ms|) > 1024 * 1024
    case _ => exists n :: FirstBad(ms, n) && Blames(ms, n, error)
  }

  lemma BlameExplains(o: RunOptions, n: nat, error: Invalid)
    requires FirstBad(Given(o), n) && Blames(Given(o), n, error)
    ensures Explains(o, error)
  {
    hide WellFormedTo;
  }

  lemma BlankSaysNothing(text: Option<string>)
    ensures Blank(text) <==> !SaysSomething(text)
  {
  }

  /** Accepts exactly the acceptable inputs, and says why it refuses. */
  method Validate(o: RunOptions) returns (error: Option<Invalid>)
    ensures error.None? <==> Acceptable(o)
    ensures error.Some? ==> Explains(o, error.value)
  {
    BlankSaysNothing(o.prompt);
    hide WellFormedTo, Settled, Tracks, Blank, SaysSomething, Size, Blames;
    if o.timeoutMs.Some? && (o.timeoutMs.value == 0 || o.timeoutMs.value > 600_000) {
      return Some(BadTimeout);
    }
    if o.maxTokens.Some? && (o.maxTokens.value == 0 || o.maxTokens.value > 32_768) {
      return Some(BadMaxTokens);
    }
    if o.sessionId.Some? {
      if o.messages.Some? {
        return Some(SessionAndMessages);
      }
      if Blank(o.prompt) {
        return Some(SessionNeedsPrompt);
      }
    }
    var messages := Given(o);
    if |messages| > 256 {
      return Some(TooManyMessages);
    }
    if messages == [] && Blank(o.prompt) {
      return Some(NothingToSend);
    }
    var bytes: nat := BaseSize(o);
    var pending: set<string>, seen: set<string> := {}, {};
    var n: nat := 0;
    NothingTracked(messages);
    while n < |messages|
      invariant n <= |messages|
      invariant WellFormedTo(messages, n) && Tracks(messages, n, pending, seen)
      invariant CountsTo(bytes, BaseSize(o) + Size(messages, n))
    {
      var refused: Option<Invalid>;
      refused, pending, seen, bytes := Take(messages, n, pending, seen, bytes, BaseSize(o));
      if refused.Some? {
        NeverWellFormed(messages, n + 1);
        BlameExplains(o, n, refused.value);
        return refused;
      }
      n := n + 1;
    }
    PendingIsOutstanding(messages, n, pending, seen);
    if pending != {} {
      return Some(Unanswered);
    }
    if bytes > MAX_INPUT_BYTES {
      return Some(TooLarge);
    }
    return None;
  }

  /** One message of the validator's loop. */
  method Take(
    ms: seq<Message>, n: nat, pending: set<string>, seen: set<string>, bytes: nat, ghost base: nat)
    returns (refused: Option<Invalid>, pending': set<string>, seen': set<string>, bytes': nat)
    requires n < |ms| && WellFormedTo(ms, n) && Tracks(ms, n, pending, seen)
    requires CountsTo(bytes, base + Size(ms, n))
    ensures refused.None? <==> WellFormedTo(ms, n + 1)
    ensures refused.Some? ==> Blames(ms, n, refused.value)
    ensures refused.None? ==> Tracks(ms, n + 1, pending', seen')
    ensures refused.None? ==> CountsTo(bytes', base + Size(ms, n + 1))
  {
    hide WellFormedTo, Settled, Tracks, Outstanding, InPlace, Distinct, CountsTo, SaturatingAdd, OptLength, Ids;
    var message := ms[n];
    refused, pending', seen', bytes' := None, pending, seen, SaturatingAdd(bytes, Length(message.content));
    CountMore(bytes, base + Size(ms, n), Length(message.content));
    if message.role == Tool {
      if message.toolCalls != [] || message.toolCallId.None? || message.toolCallId.value !in pending {
        ResultOutOfPlace(ms, n, pending, seen);
        refused := Some(StrayResult);
        return;
      }
      pending' := pending - {message.toolCallId.value};
      ResultInPlace(ms, n, pending, seen);
    } else {
      if pending != {} || message.toolCallId.Some? {
        OutOfTurn(ms, n, pending, seen);
        PendingIsOutstanding(ms, n, pending, seen);
        refused := Some(UnansweredOrUnexpected);
        return;
      }
      if message.toolCalls != [] && message.role != Assistant {
        OutOfTurn(ms, n, pending, seen);
        refused := Some(OnlyAssistantsCall);
        return;
      }
      refused, pending', seen', bytes' :=
        TakeCalls(message.toolCalls, seen, bytes', base + Size(ms, n) + Length(message.content));
      CallsInPlace(ms, n, pending, seen);
      if refused.Some? {
        return;
      }
      CallsTracked(ms, n, pending, seen);
    }
    CountMore(bytes', base + Size(ms, n) + Length(message.content) + CallsSize(message.toolCalls),
              OptLength(message.toolCallId));
    bytes' := SaturatingAdd(bytes', OptLength(message.toolCallId));
  }

  /** The ids are new: not in `seen`, and not twice among themselves. */
  predicate Fresh(calls: seq<ToolCall>, seen: set<string>) {
    && Distinct(IdsOf(calls))
    && forall a | 0 <= a < |calls| :: calls[a].id !in seen
  }

  function IdSet(calls: seq<ToolCall>): set<string> {
    set a | 0 <= a < |calls| :: calls[a].id
  }

  lemma CountCall(bytes: nat, exact: nat, call: ToolCall)
    requires CountsTo(bytes, exact)
    ensures var some := SaturatingAdd(SaturatingAdd(bytes, Length(call.id)), Length(call.name));
            CountsTo(SaturatingAdd(some, Length(call.arguments.text)), exact + CallSize(call))
  {
    hide Length;
  }

  lemma CallsSizeMore(calls: seq<ToolCall>, a: nat)
    requires a < |calls|
    ensures CallsSize(calls[..a + 1]) == CallsSize(calls[..a]) + CallSize(calls[a])
  {
    assert calls[..a + 1][..a] == calls[..a];
  }

  /** The calls of one message. */
  method TakeCalls(calls: seq<ToolCall>, was: set<string>, count: nat, ghost exact: nat)
    returns (refused: Option<Invalid>, pending: set<string>, seen: set<string>, bytes: nat)
    requires CountsTo(count, exact)
    ensures refused.None? <==> GoodCalls(calls) && Fresh(calls, was)
    ensures refused.Some? ==> refused == Some(BadCall) && calls != []
    ensures refused.None? ==> pending == IdSet(calls) && seen == was + IdSet(calls)
    ensures refused.None? ==> CountsTo(bytes, exact + CallsSize(calls))
  {
    hide CountsTo, SaturatingAdd, Fresh, GoodCalls, IdSet, CallsSize, Length;
    refused, pending, seen, bytes := None, {}, was, count;
    var a: nat := 0;
    NoCalls(was);
    assert calls[..0] == [];
    while a < |calls|
      invariant a <= |calls| && refused.None?
      invariant GoodCalls(calls[..a]) && Fresh(calls[..a], was)
      invariant pending == IdSet(calls[..a]) && seen == was + IdSet(calls[..a])
      invariant CountsTo(bytes, exact + CallsSize(calls[..a]))
    {
      var call := calls[a];
      OneMoreCall(calls, a, was);
      if call.id == "" || call.name == "" || !call.arguments.isObject || call.id in seen {
        refused := Some(BadCall);
        return;
      }
      CountCall(bytes, exact + CallsSize(calls[..a]), call);
      CallsSizeMore(calls, a);
      bytes := SaturatingAdd(SaturatingAdd(bytes, Length(call.id)), Length(call.name));
      bytes := SaturatingAdd(bytes, Length(call.arguments.text));
      seen, pending := seen + {call.id}, pending + {call.id};
      a := a + 1;
    }
    assert calls[..a] == calls;
  }

  lemma NoCalls(was: set<string>)
    ensures GoodCalls([]) && Fresh([], was) && IdSet([]) == {} && CallsSize([]) == 0
  {
  }

  lemma OneMoreCall(calls: seq<ToolCall>, a: nat, was: set<string>)
    requires a < |calls| && GoodCalls(calls[..a]) && Fresh(calls[..a], was)
    ensures IdSet(calls[..a + 1]) == IdSet(calls[..a]) + {calls[a].id}
    ensures
      var call, seen := calls[a], was + IdSet(calls[..a]);
      var ok := call.id != "" && call.name != "" && call.arguments.isObject && call.id !in seen;
      && (ok ==> GoodCalls(calls[..a + 1]) && Fresh(calls[..a + 1], was))
      && (!ok ==> !GoodCalls(calls) || !Fresh(calls, was))
  {
    var less, more := calls[..a], calls[..a + 1];
    assert more == less + [calls[a]];
    assert more[a] == calls[a];
    forall id | id in IdSet(more) ensures id in IdSet(less) + {calls[a].id} {
      var b :| 0 <= b < |more| && more[b].id == id;
      assert b < a ==> less[b].id == id;
    }
    forall id | id in IdSet(less) ensures id in IdSet(more) {
      var b :| 0 <= b < |less| && less[b].id == id;
      assert more[b].id == id;
    }
    assert calls[a].id in IdSet(more);
    if calls[a].id in IdSet(less) {
      var b :| 0 <= b < |less| && less[b].id == calls[a].id;
      assert IdsOf(calls)[b] == IdsOf(calls)[a];
    }
  }

  // ---------- one message in its place ----------

  lemma NothingTracked(ms: seq<Message>)
    ensures WellFormedTo(ms, 0) && Tracks(ms, 0, {}, {}) && Size(ms, 0) == 0
  {
  }

  lemma PendingIsOutstanding(ms: seq<Message>, n: nat, pending: set<string>, seen: set<string>)
    requires n <= |ms| && Tracks(ms, n, pending, seen)
    ensures pending == {} <==> Settled(ms, n)
  {
    hide Outstanding;
    if pending != {} {
      var id :| id in pending;
      assert Outstanding(ms, n, id);
    }
  }

  lemma NeverWellFormed(ms: seq<Message>, n: nat)
    requires n <= |ms| && !WellFormedTo(ms, n)
    ensures !WellFormedTo(ms, |ms|)
  {
    hide InPlace, GoodCalls, Distinct;
    if Distinct(Ids(ms, |ms|)) {
      EarlierDistinct(ms, n, |ms|);
    }
  }

  lemma {:induction false} IdsTail(ms: seq<Message>, m: nat, n: nat) returns (tail: seq<string>)
    requires m <= n <= |ms|
    ensures Ids(ms, n) == Ids(ms, m) + tail
    decreases n
  {
    if m == n {
      tail := [];
    } else {
      var front := IdsTail(ms, m, n - 1);
      tail := front + IdsOf(ms[n - 1].toolCalls);
      assert Ids(ms, n) == Ids(ms, n - 1) + IdsOf(ms[n - 1].toolCalls);
      hide Ids;
      Regroup(Ids(ms, m), front, IdsOf(ms[n - 1].toolCalls));
    }
  }

  lemma EarlierDistinct(ms: seq<Message>, m: nat, n: nat)
    requires m <= n <= |ms| && Distinct(Ids(ms, n))
    ensures Distinct(Ids(ms, m))
  {
    hide Ids;
    var tail := IdsTail(ms, m, n);
    DistinctAdd(Ids(ms, m), tail);
  }

  lemma WellFormedStep(ms: seq<Message>, n: nat)
    requires n < |ms| && WellFormedTo(ms, n)
    ensures WellFormedTo(ms, n + 1) <==>
            InPlace(ms, n) && GoodCalls(ms[n].toolCalls) && Distinct(Ids(ms, n + 1))
  {
    hide InPlace, GoodCalls, Distinct;
  }

  lemma ResultOutOfPlace(ms: seq<Message>, n: nat, pending: set<string>, seen: set<string>)
    requires n < |ms| && WellFormedTo(ms, n) && Tracks(ms, n, pending, seen)
    requires ms[n].role == Tool
    requires ms[n].toolCalls != [] || ms[n].toolCallId.None? || ms[n].toolCallId.value !in pending
    ensures !WellFormedTo(ms, n + 1)
  {
    hide Outstanding, Distinct, GoodCalls;
    assert !InPlace(ms, n);
    WellFormedStep(ms, n);
  }

  lemma OutOfTurn(ms: seq<Message>, n: nat, pending: set<string>, seen: set<string>)
    requires n < |ms| && WellFormedTo(ms, n) && Tracks(ms, n, pending, seen)
    requires ms[n].role != Tool
    requires pending != {} || ms[n].toolCallId.Some? || (ms[n].toolCalls != [] && ms[n].role != Assistant)
    ensures !WellFormedTo(ms, n + 1)
  {
    hide Outstanding, Distinct, GoodCalls;
    PendingIsOutstanding(ms, n, pending, seen);
    assert !InPlace(ms, n);
    WellFormedStep(ms, n);
  }

  lemma ResultInPlace(ms: seq<Message>, n: nat, pending: set<string>, seen: set<string>)
    requires n < |ms| && WellFormedTo(ms, n) && Tracks(ms, n, pending, seen)
    requires ms[n].role == Tool && ms[n].toolCalls == [] && ms[n].toolCallId.Some? && ms[n].toolCallId.value in pending
    ensures WellFormedTo(ms, n + 1)
    ensures Tracks(ms, n + 1, pending - {ms[n].toolCallId.value}, seen)
    ensures CallsSize(ms[n].toolCalls) == 0
  {
    hide Distinct, GoodCalls;
    assert Ids(ms, n + 1) == Ids(ms, n);
    assert InPlace(ms, n) by { hide Outstanding; }
    assert GoodCalls(ms[n].toolCalls) by { NoCalls({}); }
    WellFormedStep(ms, n);
    forall id ensures Outstanding(ms, n + 1, id) <==> Outstanding(ms, n, id) && Some(id) != ms[n].toolCallId {
      AfterResult(ms, n, id);
    }
  }

  lemma AfterResult(ms: seq<Message>, n: nat, id: string)
    requires n < |ms| && ms[n].role == Tool
    ensures Outstanding(ms, n + 1, id) <==> Outstanding(ms, n, id) && Some(id) != ms[n].toolCallId
  {
    forall i | 0 <= i < n
      ensures OpenAt(ms, i, n + 1) <==> OpenAt(ms, i, n)
      ensures AnsweredBetween(ms, i, n + 1, id) <==> AnsweredBetween(ms, i, n, id) || ms[n].toolCallId == Some(id)
    {
    }
  }

  lemma CallsInPlace(ms: seq<Message>, n: nat, pending: set<string>, seen: set<string>)
    requires n < |ms| && WellFormedTo(ms, n) && Tracks(ms, n, pending, seen) && pending == {}
    requires ms[n].role != Tool && ms[n].toolCallId.None? && (ms[n].toolCalls != [] ==> ms[n].role == Assistant)
    ensures InPlace(ms, n)
    ensures WellFormedTo(ms, n + 1) <==> GoodCalls(ms[n].toolCalls) && Fresh(ms[n].toolCalls, seen)
  {
    hide Outstanding, GoodCalls;
    PendingIsOutstanding(ms, n, pending, seen);
    assert InPlace(ms, n);
    WellFormedStep(ms, n);
    hide InPlace;
    DistinctAdd(Ids(ms, n), IdsOf(ms[n].toolCalls));
    assert WellFormedTo(ms, n);
    var ids, calls := Ids(ms, n), ms[n].toolCalls;
    assert Fresh(calls, seen) <==> Distinct(IdsOf(calls)) && forall a | 0 <= a < |calls| :: IdsOf(calls)[a] !in ids;
  }

  lemma DistinctAdd(a: seq<string>, b: seq<string>)
    ensures Distinct(a + b) <==> Distinct(a) && Distinct(b) && forall k | 0 <= k < |b| :: b[k] !in a
  {
    var all := a + b;
    if Distinct(all) {
      assert forall i | 0 <= i < |a| :: all[i] == a[i];
      assert forall k | 0 <= k < |b| :: all[|a| + k] == b[k];
      forall i, k | 0 <= i < |a| && 0 <= k < |b| ensures a[i] != b[k] {
        assert all[i] != all[|a| + k];
      }
    }
  }

  lemma CallsTracked(ms: seq<Message>, n: nat, pending: set<string>, seen: set<string>)
    requires n < |ms| && Tracks(ms, n, pending, seen) && ms[n].role != Tool
    ensures Tracks(ms, n + 1, IdSet(ms[n].toolCalls), seen + IdSet(ms[n].toolCalls))
  {
    var calls := ms[n].toolCalls;
    forall id
      ensures id in IdSet(calls) <==> Outstanding(ms, n + 1, id)
      ensures id in IdSet(calls) <==> id in IdsOf(calls)
    {
      var m := n + 1;
      assert forall i | 0 <= i < n :: !OpenAt(ms, i, m);
      assert OpenAt(ms, n, n + 1) && !AnsweredBetween(ms, n, n + 1, id);
      assert id in IdSet(calls) <==> ms[n].Calls(id);
      if id in IdSet(calls) {
        var a :| 0 <= a < |calls| && calls[a].id == id;
        assert IdsOf(calls)[a] == id;
      }
    }
  }
}
