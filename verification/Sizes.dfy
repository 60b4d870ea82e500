/** UTF-8, and how many bytes the text of an input takes. */
module Sizes {
  import opened Base
  import opened Conversation
  import Histories

  // ---------- UTF-8 ----------

  function Byte(n: nat): char
    requires n < 0x100
  {
    n as char
  }

  /** The bytes of a character (section 3 of RFC 3629). */
  function Encoded(c: char): Bytes {
    var n := c as int;
    if n < 0x80 then [c]
    else if n < 0x800 then [Byte(0xC0 + n / 64), Byte(0x80 + n % 64)]
    else if n < 0x10000 then [Byte(0xE0 + n / 4096), Byte(0x80 + n / 64 % 64), Byte(0x80 + n % 64)]
    else [Byte(0xF0 + n / 262144), Byte(0x80 + n / 4096 % 64), Byte(0x80 + n / 64 % 64), Byte(0x80 + n % 64)]
  }

  function Encoding(text: string): Bytes {
    if text == "" then "" else Encoded(text[0]) + Encoding(text[1..])
  }

  lemma {:induction false} EncodingAdd(a: string, b: string)
    ensures Encoding(a + b) == Encoding(a) + Encoding(b)
  {
    hide Encoded;
    if a == "" {
      assert a + b == b;
    } else {
      assert (a + b)[1..] == a[1..] + b;
      EncodingAdd(a[1..], b);
      Regroup(Encoded(a[0]), Encoding(a[1..]), Encoding(b));
    }
  }

  lemma EncodingOne(c: char)
    ensures Encoding([c]) == Encoded(c)
  {
    hide Encoded;
    assert [c][1..] == "";
    assert Encoded(c) + "" == Encoded(c);
  }

  /** Bytes are UTF-8 exactly when they are what some text is encoded as. */
  lemma Utf8Exactly(b: Bytes)
    ensures Histories.Utf8(b) <==> exists text :: Encoding(text) == b
  {
    hide Histories.Utf8;
    if Histories.Utf8(b) {
      var text := Decoded(b);
    }
    if text: string :| Encoding(text) == b {
      EncodingIsUtf8(text);
    }
  }

  lemma {:induction false} EncodingIsUtf8(text: string)
    ensures Histories.Utf8(Encoding(text))
  {
    if text != "" {
      EncodingIsUtf8(text[1..]);
      EncodedFirst(text[0], Encoding(text[1..]));
    }
  }

  lemma EncodedFirst(c: char, rest: Bytes)
    requires Histories.Utf8(rest)
    ensures Histories.Utf8(Encoded(c) + rest)
  {
    var b := Encoded(c) + rest;
    assert b[|Encoded(c)|..] == rest;
    assert forall k | 0 <= k < |Encoded(c)| :: b[k] == Encoded(c)[k];
  }

  lemma {:induction false} Decoded(b: Bytes) returns (text: string)
    requires Histories.Utf8(b)
    ensures Encoding(text) == b
    decreases |b|
  {
    if b == "" {
      text := "";
    } else {
      var c, n := FirstDecoded(b);
      hide Histories.Utf8, Encoded;
      var rest := Decoded(b[n..]);
      text := [c] + rest;
      assert text[1..] == rest && b == b[..n] + b[n..];
    }
  }

  lemma FirstDecoded(b: Bytes) returns (c: char, n: nat)
    requires b != "" && Histories.Utf8(b)
    ensures 0 < n <= |b| && Histories.Utf8(b[n..]) && Encoded(c) == b[..n]
  {
    if b[0] as int < 0x80 {
      c, n := b[0], 1;
    } else if b[0] as int < 0xE0 {
      n := 2;
      c := Decoded2(b[0], b[1]);
    } else if b[0] as int < 0xF0 {
      n := 3;
      c := Decoded3(b[0], b[1], b[2]);
    } else {
      n := 4;
      c := Decoded4(b[0], b[1], b[2], b[3]);
    }
    hide Histories.Utf8, Encoded;
    assert Encoded(c) == b[..n];
  }

  lemma Decoded2(x: char, y: char) returns (c: char)
    requires Histories.InRange(x, 0xC2, 0xDF) && Histories.Tail(y)
    ensures Encoded(c) == [x, y]
  {
    var code := (x as int - 0xC0) * 64 + (y as int - 0x80);
    assert code / 64 == x as int - 0xC0 && code % 64 == y as int - 0x80;
    c := code as char;
  }

  lemma Decoded3(x: char, y: char, z: char) returns (c: char)
    requires Histories.InRange(x, 0xE0, 0xEF) && Histories.Tail(z)
    requires Histories.InRange(y, if x as int == 0xE0 then 0xA0 else 0x80, if x as int == 0xED then 0x9F else 0xBF)
    ensures Encoded(c) == [x, y, z]
  {
    var high := (x as int - 0xE0) * 64 + (y as int - 0x80);
    var code := high * 64 + (z as int - 0x80);
    assert code / 64 == high && code % 64 == z as int - 0x80;
    assert high / 64 == x as int - 0xE0 && high % 64 == y as int - 0x80;
    assert code / 4096 == high / 64;
    c := code as char;
  }

  lemma Decoded4(x: char, y: char, z: char, w: char) returns (c: char)
    requires Histories.InRange(x, 0xF0, 0xF4) && Histories.Tail(z) && Histories.Tail(w)
    requires Histories.InRange(y, if x as int == 0xF0 then 0x90 else 0x80, if x as int == 0xF4 then 0x8F else 0xBF)
    ensures Encoded(c) == [x, y, z, w]
  {
    var top := (x as int - 0xF0) * 64 + (y as int - 0x80);
    var high := top * 64 + (z as int - 0x80);
    var code := high * 64 + (w as int - 0x80);
    assert code / 64 == high && code % 64 == w as int - 0x80;
    assert high / 64 == top && high % 64 == z as int - 0x80;
    assert top / 64 == x as int - 0xF0 && top % 64 == y as int - 0x80;
    assert code / 4096 == high / 64 && code / 262144 == top / 64;
    c := code as char;
  }

  // ---------- sizes ----------

  /** A text's size is how many bytes encode it. */
  lemma {:induction false} LengthIsEncoded(text: string)
    ensures Length(text) == |Encoding(text)|
  {
    if text != "" {
      var last := |text| - 1;
      LengthIsEncoded(text[..last]);
      EncodingAdd(text[..last], [text[last]]);
      EncodingOne(text[last]);
      assert text[..last] + [text[last]] == text;
    }
  }

  lemma NoLength()
    ensures Length("") == 0
  {
  }

  lemma LengthAdd(a: string, b: string)
    ensures Length(a + b) == Length(a) + Length(b)
  {
    LengthIsEncoded(a);
    LengthIsEncoded(b);
    LengthIsEncoded(a + b);
    EncodingAdd(a, b);
  }

  /** All text of a message: what it says, each call's id, name and arguments, and the id
      of the call it answers. */
  function CallText(call: ToolCall): string {
    call.id + call.name + call.arguments.text
  }

  function CallsText(calls: seq<ToolCall>): string {
    if calls == [] then "" else CallText(calls[0]) + CallsText(calls[1..])
  }

  function AllText(ms: seq<Message>): string {
    if ms == [] then ""
    else ms[0].content + CallsText(ms[0].toolCalls) + ms[0].toolCallId.GetOr("") + AllText(ms[1..])
  }

  lemma {:induction false} CallsTextAdd(a: seq<ToolCall>, b: seq<ToolCall>)
    ensures CallsText(a + b) == CallsText(a) + CallsText(b)
  {
    hide CallText;
    if a == [] {
      assert a + b == b;
    } else {
      assert (a + b)[1..] == a[1..] + b;
      CallsTextAdd(a[1..], b);
      Regroup(CallText(a[0]), CallsText(a[1..]), CallsText(b));
    }
  }

  lemma {:induction false} CallsSizeIs(calls: seq<ToolCall>)
    ensures CallsSize(calls) == Length(CallsText(calls))
  {
    hide Length;
    if calls == [] {
      NoLength();
    } else {
      var last := |calls| - 1;
      var call := calls[last];
      CallsSizeIs(calls[..last]);
      assert calls == calls[..last] + [call];
      CallsTextAdd(calls[..last], [call]);
      assert CallsText([call]) == CallText(call) by {
        assert [call][1..] == [] && CallText(call) + "" == CallText(call);
      }
      LengthAdd(call.id + call.name, call.arguments.text);
      LengthAdd(call.id, call.name);
      LengthAdd(CallsText(calls[..last]), CallText(call));
    }
  }

  lemma MessageSizeIs(m: Message)
    ensures MessageSize(m) == Length(m.content + CallsText(m.toolCalls) + m.toolCallId.GetOr(""))
  {
    hide Length;
    CallsSizeIs(m.toolCalls);
    LengthAdd(m.content, CallsText(m.toolCalls));
    LengthAdd(m.content + CallsText(m.toolCalls), m.toolCallId.GetOr(""));
    NoLength();
  }

  lemma AllTextFirst(m: Message, ms: seq<Message>)
    ensures AllText([m] + ms) == m.content + CallsText(m.toolCalls) + m.toolCallId.GetOr("") + AllText(ms)
  {
    assert ([m] + ms)[1..] == ms;
  }

  lemma {:induction false} AllTextAdd(a: seq<Message>, b: seq<Message>)
    ensures AllText(a + b) == AllText(a) + AllText(b)
  {
    if a == [] {
      assert a + b == b;
    } else {
      var own := a[0].content + CallsText(a[0].toolCalls) + a[0].toolCallId.GetOr("");
      AllTextAdd(a[1..], b);
      AllTextFirst(a[0], a[1..] + b);
      assert [a[0]] + (a[1..] + b) == a + b;
      Regroup(own, AllText(a[1..]), AllText(b));
    }
  }

  lemma {:induction false} SizeIs(ms: seq<Message>, n: nat)
    requires n <= |ms|
    ensures Size(ms, n) == Length(AllText(ms[..n]))
  {
    hide Length, MessageSize;
    if n == 0 {
      assert ms[..0] == [];
      NoLength();
    } else {
      var m := ms[n - 1];
      SizeIs(ms, n - 1);
      assert ms[..n] == ms[..n - 1] + [m];
      AllTextAdd(ms[..n - 1], [m]);
      assert AllText([m]) == m.content + CallsText(m.toolCalls) + m.toolCallId.GetOr("") by {
        AllTextFirst(m, []);
        assert [m] + [] == [m];
        assert AllText([m]) + "" == AllText([m]);
      }
      MessageSizeIs(m);
      LengthAdd(AllText(ms[..n - 1]), AllText([m]));
    }
  }

  /** What counts against the limit is how many bytes encode all the text of the input. */
  lemma InputSizeIs(o: RunOptions)
    ensures BaseSize(o) + Size(Given(o), |Given(o)|)
         == |Encoding(o.prompt.GetOr("") + o.system.GetOr("") + o.model.GetOr("") + AllText(o.messages.GetOr([])))|
  {
    hide Length, Encoding, AllText;
    var prompt, system, model, ms := o.prompt.GetOr(""), o.system.GetOr(""), o.model.GetOr(""), o.messages.GetOr([]);
    SizeIs(ms, |ms|);
    assert ms[..|ms|] == ms;
    LengthAdd(prompt, system);
    LengthAdd(prompt + system, model);
    LengthAdd(prompt + system + model, AllText(ms));
    LengthIsEncoded(prompt + system + model + AllText(ms));
    NoLength();
  }

  // ---------- calls and their answers ----------

  lemma IdAt(ms: seq<Message>, i: nat, n: nat, id: string)
    requires i < n <= |ms| && ms[i].Calls(id)
    ensures id in Ids(ms, n)
  {
    var a :| 0 <= a < |ms[i].toolCalls| && ms[i].toolCalls[a].id == id;
    assert IdsOf(ms[i].toolCalls)[a] == id;
    assert id in Ids(ms, i + 1);
    var tail := IdsTail(ms, i + 1, n);
  }

  lemma CalledTwice(ms: seq<Message>, i: nat, j: nat, id: string)
    requires i < j < |ms| && ms[i].Calls(id) && ms[j].Calls(id)
    ensures !Distinct(Ids(ms, |ms|))
  {
    IdAt(ms, i, j, id);
    var calls := ms[j].toolCalls;
    var a :| 0 <= a < |calls| && calls[a].id == id;
    assert IdsOf(calls)[a] == id;
    DistinctAdd(Ids(ms, j), IdsOf(calls));
    assert Ids(ms, j + 1) == Ids(ms, j) + IdsOf(calls);
    var tail := IdsTail(ms, j + 1, |ms|);
    DistinctAdd(Ids(ms, j + 1), tail);
  }

  /** In a conversation that is accepted every call comes from an assistant, with an id, a
      name and an object for arguments. */
  lemma CallsAreGood(ms: seq<Message>, i: nat, a: nat)
    requires WellFormed(ms) && i < |ms| && a < |ms[i].toolCalls|
    ensures ms[i].role == Assistant
    ensures var call := ms[i].toolCalls[a]; |call.id| > 0 && |call.name| > 0 && call.arguments.isObject
  {
    hide Outstanding, Distinct;
    assert InPlace(ms, i) && GoodCalls(ms[i].toolCalls);
  }

  /** In a conversation that is accepted every call has one answer, and no other message
      names its id: a tool result, with nothing but other results in between. */
  lemma AnsweredOnce(ms: seq<Message>, i: nat, id: string) returns (j: nat)
    requires WellFormed(ms) && i < |ms| && ms[i].Calls(id)
    ensures i < j < |ms| && ms[j].role == Tool && ms[j].toolCallId == Some(id)
    ensures forall k | i < k < j :: ms[k].role == Tool
    ensures forall k | 0 <= k < |ms| && ms[k].toolCallId == Some(id) :: k == j
  {
    hide Distinct, GoodCalls, Ids;
    var end := i + 1;
    while end < |ms| && ms[end].role == Tool
      invariant i < end <= |ms| && forall k | i < k < end :: ms[k].role == Tool
    {
      end := end + 1;
    }
    assert ms[i].role != Tool by { assert InPlace(ms, i); assert ms[i].toolCalls != []; }
    assert end < |ms| ==> InPlace(ms, end);
    assert OpenAt(ms, i, end) && !Outstanding(ms, end, id);
    j :| i < j < end && ms[j].toolCallId == Some(id);
    AnswersIt(ms, i, j, id);
    forall k | 0 <= k < |ms| && ms[k].toolCallId == Some(id) ensures k == j {
      AnswersIt(ms, i, k, id);
    }
  }

  lemma AnswersIt(ms: seq<Message>, i: nat, j: nat, id: string)
    requires WellFormed(ms) && i < |ms| && ms[i].Calls(id) && j < |ms| && ms[j].toolCallId == Some(id)
    ensures i < j && forall k | i < k < j :: ms[k].toolCallId != Some(id)
  {
    hide Distinct, GoodCalls, Ids;
    assert InPlace(ms, j) && Outstanding(ms, j, id);
    var from :| 0 <= from < j && OpenAt(ms, from, j) && ms[from].Calls(id) && !AnsweredBetween(ms, from, j, id);
    if from < i {
      CalledTwice(ms, from, i, id);
    }
    if i < from {
      CalledTwice(ms, i, from, id);
    }
  }
}
