/** handleSubmit of components/ai-chat-widget.tsx. A submission is split at
    its one `await` boundary: `Begin` is what happens synchronously (guard,
    optimistic user message, request payload) and `Finish` folds the
    outcome of the request into the state. Clock readings are parameters. */
module ChatWidget {
  import opened Optional
  import Text

  const Apology: string := "I apologize, but I couldn't generate a response. Please try again."

  datatype Role = User | Assistant

  datatype Message = Message(id: string, role: Role, content: string)

  /** The component state that a submission reads or writes. */
  datatype Widget = Widget(messages: seq<Message>, input: string, loading: bool, error: Option<string>)

  /** `{ role, content }`, one element of the request's `messages`. */
  datatype ApiMessage = ApiMessage(role: Role, content: string)

  /** What `fetch` and `response.json()` yield: a rejection (with the
      thrown error's message), or the status and the `content` / `error`
      strings of the parsed body (absent or non-string as `None`). */
  datatype Reply =
    | Rejected(message: string)
    | Answered(ok: bool, status: nat, content: Option<string>, error: Option<string>)

  datatype Started = Ignored | Sent(widget: Widget, payload: seq<ApiMessage>)

  function ToApi(ms: seq<Message>): (r: seq<ApiMessage>)
    ensures |r| == |ms|
    ensures forall i :: 0 <= i < |ms| ==> r[i].role == ms[i].role && r[i].content == ms[i].content
  {
    seq(|ms|, i requires 0 <= i < |ms| => ApiMessage(ms[i].role, ms[i].content))
  }

  predicate Truthy(v: Option<string>)
  {
    v.Some? && v.value != ""
  }

  /** The synchronous half of handleSubmit at clock reading `now`. */
  function Begin(w: Widget, now: nat): (r: Started)
    ensures r.Ignored? <==> Text.Trim(w.input) == "" || w.loading
    ensures r.Sent? ==>
              && r.widget.messages == w.messages + [Message("user-" + Text.Decimal(now), User, Text.Trim(w.input))]
              && r.widget.input == "" && r.widget.loading && r.widget.error == None
              && r.payload == ToApi(w.messages) + [ApiMessage(User, Text.Trim(w.input))]
  {
    var trimmed := Text.Trim(w.input);
    if trimmed == "" || w.loading then Ignored
    else
      var user := Message("user-" + Text.Decimal(now), User, trimmed);
      Sent(Widget(w.messages + [user], "", true, None), ToApi(w.messages + [user]))
  }

  /** The asynchronous half, at clock reading `now` when the reply lands. */
  function Finish(w: Widget, reply: Reply, now: nat): (r: Widget)
    ensures !r.loading && r.input == w.input
    // success: one non-empty assistant message is appended, nothing else changes
    ensures reply.Answered? && reply.ok ==>
              && |r.messages| == |w.messages| + 1 && r.messages[..|w.messages|] == w.messages
              && r.messages[|w.messages|].role == Assistant
              && r.messages[|w.messages|].id == "assistant-" + Text.Decimal(now)
              && r.messages[|w.messages|].content != ""
              && r.error == w.error
    // failure: the conversation is kept and the error shown
    ensures !(reply.Answered? && reply.ok) ==> r.messages == w.messages && r.error == Some(ErrorText(reply))
  {
    match reply
    case Rejected(message) => w.(loading := false, error := Some(message))
    case Answered(ok, status, content, error) =>
      if !ok then w.(loading := false, error := Some(ErrorText(reply)))
      else
        var text := if Truthy(content) then content.value else Apology;
        w.(messages := w.messages + [Message("assistant-" + Text.Decimal(now), Assistant, text)], loading := false)
  }

  /** The message a failed submission shows: the thrown message, or for a
      non-ok response its `error`, falling back to `HTTP <status>`. */
  function ErrorText(reply: Reply): (t: string)
    ensures reply.Rejected? ==> t == reply.message
    ensures reply.Answered? && Truthy(reply.error) ==> t == reply.error.value
    ensures reply.Answered? && !Truthy(reply.error) ==> |t| > 5 && t[..5] == "HTTP "
  {
    match reply
    case Rejected(message) => message
    case Answered(_, status, _, error) => if Truthy(error) then error.value else "HTTP " + Text.Decimal(status)
  }

  /** The fallback text names the status: its digits read back as the
      response's status code. */
  lemma ErrorTextNamesStatus(ok: bool, status: nat, content: Option<string>, error: Option<string>)
    requires !Truthy(error)
    ensures var t := ErrorText(Answered(ok, status, content, error));
            |t| > 5 && t[..5] == "HTTP "
            && (forall k :: 5 <= k < |t| ==> '0' <= t[k] <= '9')
            && Text.DecimalValue(t[5..]) == status
  {
    var t := ErrorText(Answered(ok, status, content, error));
    assert t[5..] == Text.Decimal(status);
    Text.DecimalRoundTrip(status);
  }

  /** A whole submission. */
  function Submit(w: Widget, sentAt: nat, reply: Reply, repliedAt: nat): (r: Widget)
    ensures Text.Trim(w.input) == "" || w.loading ==> r == w
  {
    match Begin(w, sentAt)
    case Ignored => w
    case Sent(started, _) => Finish(started, reply, repliedAt)
  }

  /** A successful exchange appends exactly the trimmed question and the
      answer (or the apology for an empty answer), and clears the input. */
  lemma SuccessfulExchange(w: Widget, sentAt: nat, content: Option<string>, status: nat, error: Option<string>, repliedAt: nat)
    requires Text.Trim(w.input) != "" && !w.loading
    ensures Submit(w, sentAt, Answered(true, status, content, error), repliedAt).messages ==
              w.messages + [Message("user-" + Text.Decimal(sentAt), User, Text.Trim(w.input)),
                            Message("assistant-" + Text.Decimal(repliedAt), Assistant, if Truthy(content) then content.value else Apology)]
    ensures Submit(w, sentAt, Answered(true, status, content, error), repliedAt).error == None
    ensures Submit(w, sentAt, Answered(true, status, content, error), repliedAt).input == ""
  {
    var started := Begin(w, sentAt).widget;
    SubmitSent(w, sentAt, Answered(true, status, content, error), repliedAt);
    FinishAnswered(started, status, content, error, repliedAt);
    AppendTwo(w.messages, Message("user-" + Text.Decimal(sentAt), User, Text.Trim(w.input)),
              Message("assistant-" + Text.Decimal(repliedAt), Assistant, if Truthy(content) then content.value else Apology));
  }

  /** A submission that is not ignored is its two halves in sequence. */
  lemma SubmitSent(w: Widget, sentAt: nat, reply: Reply, repliedAt: nat)
    requires Text.Trim(w.input) != "" && !w.loading
    ensures Begin(w, sentAt).Sent?
    ensures Submit(w, sentAt, reply, repliedAt) == Finish(Begin(w, sentAt).widget, reply, repliedAt)
  {
  }

  lemma AppendTwo<T>(xs: seq<T>, a: T, b: T)
    ensures (xs + [a]) + [b] == xs + [a, b]
  {
  }

  /** A successful reply appends its answer, or the apology, and changes
      nothing else but the loading flag. */
  lemma FinishAnswered(v: Widget, status: nat, content: Option<string>, error: Option<string>, repliedAt: nat)
    ensures Finish(v, Answered(true, status, content, error), repliedAt) ==
              v.(messages := v.messages + [Message("assistant-" + Text.Decimal(repliedAt), Assistant,
                                                   if Truthy(content) then content.value else Apology)],
                 loading := false)
  {
  }

  /** A failed exchange keeps the question on screen and shows the error. */
  lemma FailedExchange(w: Widget, sentAt: nat, reply: Reply, repliedAt: nat)
    requires Text.Trim(w.input) != "" && !w.loading
    requires reply.Rejected? || !reply.ok
    ensures Submit(w, sentAt, reply, repliedAt).messages ==
              w.messages + [Message("user-" + Text.Decimal(sentAt), User, Text.Trim(w.input))]
    ensures Submit(w, sentAt, reply, repliedAt).error == Some(ErrorText(reply))
    ensures !Submit(w, sentAt, reply, repliedAt).loading
  {
  }

  lemma ErrorTextExamples()
    ensures ErrorText(Answered(false, 429, None, None)) == "HTTP 429"
    ensures ErrorText(Answered(false, 500, None, Some(""))) == "HTTP 500"
    ensures ErrorText(Answered(false, 400, None, Some("Messages array is required"))) == "Messages array is required"
  {
    StatusDigits();
  }

  /** The decimal renderings of the statuses used in the examples. */
  lemma StatusDigits()
    ensures Text.Decimal(429) == "429" && Text.Decimal(500) == "500"
  {
    assert Text.Decimal(4) == "4";
    assert Text.Decimal(42) == Text.Decimal(4) + "2";
    assert Text.Decimal(429) == Text.Decimal(42) + "9";
    assert Text.Decimal(5) == "5";
    assert Text.Decimal(50) == Text.Decimal(5) + "0";
    assert Text.Decimal(500) == Text.Decimal(50) + "0";
  }
}
