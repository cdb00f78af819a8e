/**
 * The conversation session of the chatbot: the message history kept in the
 * session state, one chat turn of `handle_chat` and the plain-text export of
 * `export_chat`. The hosted model is a function from the outbound message
 * list to a reply, or to no reply when the call fails.
 */
module Conversation {
  import opened Wrappers
  import opened Retriever
  import opened Assembler

  datatype Role = System | User | Assistant
  {
    /** The role string stored in a message. */
    function Name(): string
    {
      match this
      case System => "system"
      case User => "user"
      case Assistant => "assistant"
    }
  }

  datatype Message = Message(role: Role, content: string)

  const SYSTEM_PROMPT := "You are a helpful assistant."

  /** What one call of `handle_chat` did. */
  datatype Turn =
    | NoInput
    | RetrievalFailed
    | Replied(outbound: seq<Message>, reply: string)
    | EndpointFailed(outbound: seq<Message>)

  /**
   * Lines 65-67: the message list sent to the model, the system instruction,
   * then the history, then the query as one more user message.
   */
  function Outbound(history: seq<Message>, query: string): (out: seq<Message>)
    ensures |out| == |history| + 2
    ensures out[0] == Message(System, SYSTEM_PROMPT)
    ensures out[1..|history| + 1] == history
    ensures out[|history| + 1] == Message(User, query)
  {
    [Message(System, SYSTEM_PROMPT)] + history + [Message(User, query)]
  }

  /**
   * In a turn the history sent already ends with the raw prompt, so the
   * outbound list is three messages longer than the history before the turn
   * and carries the raw prompt and then the query.
   */
  lemma TurnOutbound(history: seq<Message>, prompt: string, query: string)
    ensures var out := Outbound(history + [Message(User, prompt)], query);
      |out| == |history| + 3
      && out[1..|history| + 1] == history
      && out[|history| + 1] == Message(User, prompt)
      && out[|history| + 2] == Message(User, query)
  {
    var h := history + [Message(User, prompt)];
    assert Outbound(h, query)[1..|h| + 1] == h;
    assert h[..|history|] == history;
  }

  // ---------------------------------------------------------------------
  // Plain-text export.

  function Upper(c: char): char
  {
    if 'a' <= c <= 'z' then (c as int - 32) as char else c
  }

  function Lower(c: char): char
  {
    if 'A' <= c <= 'Z' then (c as int + 32) as char else c
  }

  function LowerAll(s: string): string
  {
    if s == "" then "" else [Lower(s[0])] + LowerAll(s[1..])
  }

  /** Text without upper-case ASCII letters is its own lower-case form. */
  lemma {:induction false} LowerAllKeepsLower(s: string)
    requires forall i :: 0 <= i < |s| ==> !('A' <= s[i] <= 'Z')
    ensures LowerAll(s) == s
  {
    if s != "" {
      LowerAllKeepsLower(s[1..]);
    }
  }

  /** `str.capitalize` on ASCII letters: first character upper, rest lower. */
  function Capitalize(s: string): string
  {
    if s == "" then "" else [Upper(s[0])] + LowerAll(s[1..])
  }

  /** The role as the export labels it. */
  function Label(role: Role): string
  {
    match role
    case System => "System"
    case User => "User"
    case Assistant => "Assistant"
  }

  /** Capitalizing a lower-case word upper-cases its first letter only. */
  lemma CapitalizeLowerWord(s: string)
    requires s != "" && forall i :: 0 <= i < |s| ==> 'a' <= s[i] <= 'z'
    ensures Capitalize(s) == [Upper(s[0])] + s[1..]
  {
    LowerAllKeepsLower(s[1..]);
  }

  /** The label of a role is its stored name, capitalized as line 84 does. */
  lemma LabelIsCapitalizedName(role: Role)
    ensures Label(role) == Capitalize(role.Name())
  {
    var name := role.Name();
    CapitalizeLowerWord(name);
    assert Upper(name[0]) == Label(role)[0];
    assert name[1..] == Label(role)[1..];
  }

  /** Line 84: one message of the export (see LabelIsCapitalizedName). */
  function Line(m: Message): string
  {
    Label(m.role) + ": " + m.content + "\n\n"
  }

  /** The export of a history: its lines, in order. */
  function Transcript(messages: seq<Message>): string
  {
    if messages == [] then ""
    else Transcript(messages[..|messages| - 1]) + Line(messages[|messages| - 1])
  }

  /** Exporting one more message appends its line. */
  lemma TranscriptSnoc(messages: seq<Message>, m: Message)
    ensures Transcript(messages + [m]) == Transcript(messages) + Line(m)
  {
    assert (messages + [m])[..|messages|] == messages;
  }

  /** Exporting two histories one after the other is exporting them joined. */
  lemma {:induction false} TranscriptConcat(a: seq<Message>, b: seq<Message>)
    ensures Transcript(a + b) == Transcript(a) + Transcript(b)
    decreases |b|
  {
    if b != [] {
      var b', last := b[..|b| - 1], b[|b| - 1];
      assert a + b == (a + b') + [last];
      assert b == b' + [last];
      TranscriptConcat(a, b');
      TranscriptSnoc(a + b', last);
      TranscriptSnoc(b', last);
      AppendAssoc(Transcript(a), Transcript(b'), Line(last));
    } else {
      assert a + b == a;
    }
  }

  /**
   * Regrouping a concatenation. Stated on its own so that TranscriptConcat
   * sees the fact only for the three strings it is about.
   */
  lemma AppendAssoc(x: string, y: string, z: string)
    ensures (x + y) + z == x + (y + z)
  {
  }

  /**
   * A turn that got a reply adds exactly the raw prompt and the reply to the
   * export, never the context-augmented query.
   */
  lemma TranscriptAfterTurn(history: seq<Message>, prompt: string, reply: string)
    ensures Transcript(history + [Message(User, prompt), Message(Assistant, reply)])
         == Transcript(history) + "User: " + prompt + "\n\n" + "Assistant: " + reply + "\n\n"
  {
    var u, r := Message(User, prompt), Message(Assistant, reply);
    calc {
      Transcript(history + [u, r]);
    == { assert history + [u, r] == (history + [u]) + [r]; TranscriptSnoc(history + [u], r); }
      Transcript(history + [u]) + Line(r);
    == { TranscriptSnoc(history, u); }
      Transcript(history) + Line(u) + Line(r);
    ==
      Transcript(history) + "User: " + prompt + "\n\n" + "Assistant: " + reply + "\n\n";
    }
  }

  // ---------------------------------------------------------------------
  // The session.

  /** The session state: the chat history and the loaded document's chunks. */
  class Session {
    var messages: seq<Message>
    var pdfChunks: Option<seq<string>>

    /** Line 40: a new session starts with an empty history and no document. */
    constructor ()
      ensures messages == [] && pdfChunks == None
    {
      messages := [];
      pdfChunks := None;
    }

    /**
     * Lines 50-71: one chat turn. Nothing happens without a non-empty prompt.
     * Otherwise the raw prompt is appended, the outbound list is built from
     * the history that already holds it plus the context-augmented query,
     * and the model's reply is appended. If retrieval raises (`scores` is
     * None: the vectorizer found nothing to score) or the model call fails,
     * the turn stops there, with the prompt already recorded; a failed
     * retrieval never reaches the model.
     */
    method HandleChat(input: Option<string>, scores: Option<seq<int>>, order: seq<nat>,
                      endpoint: seq<Message> -> Option<string>) returns (turn: Turn)
      requires Loaded(pdfChunks) && scores.Some? ==>
        |scores.value| == |pdfChunks.value| && IsArgsort(scores.value, order)
      modifies this
      ensures pdfChunks == old(pdfChunks)
      ensures input == None || input == Some("") ==>
        turn == NoInput && messages == old(messages)
      ensures input.Some? && input.value != "" && Loaded(pdfChunks) && scores.None? ==>
        turn == RetrievalFailed && messages == old(messages) + [Message(User, input.value)]
      ensures input.Some? && input.value != "" && !(Loaded(pdfChunks) && scores.None?) ==>
        var prompt := input.value;
        var context := Context(pdfChunks, scores.UnwrapOr([]), order);
        var sent := Outbound(old(messages) + [Message(User, prompt)], UserQuery(prompt, context));
        match endpoint(sent)
        case None =>
          turn == EndpointFailed(sent) && messages == old(messages) + [Message(User, prompt)]
        case Some(reply) =>
          turn == Replied(sent, reply)
          && messages == old(messages) + [Message(User, prompt), Message(Assistant, reply)]
    {
      if input == None || input == Some("") {
        return NoInput;
      }
      var prompt := input.value;
      messages := messages + [Message(User, prompt)];
      var context := "";
      if pdfChunks.Some? && pdfChunks.value != [] {
        if scores.None? {
          return RetrievalFailed;
        }
        var relevant := RetrieveChunks(pdfChunks.value, scores.value, order, DEFAULT_TOP_K);
        context := Join(SEPARATOR, relevant);
      }
      var query := if context == "" then prompt
                   else CONTEXT_HEADER + context + QUESTION_HEADER + prompt;
      var sent := [Message(System, SYSTEM_PROMPT)] + messages + [Message(User, query)];
      var response := endpoint(sent);
      if response.None? {
        return EndpointFailed(sent);
      }
      var reply := response.value;
      messages := messages + [Message(Assistant, reply)];
      turn := Replied(sent, reply);
    }

    /**
     * Lines 77-85, the "txt" format: no export for an empty history,
     * otherwise every message as a "Role: content" line followed by a blank
     * line, in history order.
     */
    method ExportText() returns (data: Option<string>)
      ensures messages == [] ==> data == None
      ensures messages != [] ==> data == Some(Transcript(messages))
    {
      if |messages| == 0 {
        return None;
      }
      var chatText := "";
      for i := 0 to |messages|
        invariant chatText == Transcript(messages[..i])
      {
        assert messages[..i + 1][..i] == messages[..i];
        chatText := chatText + Line(messages[i]);
      }
      assert messages[..|messages|] == messages;
      return Some(chatText);
    }
  }
}
