/** app/api/chat/route.ts: the chat endpoint. The request body is modelled
    at the granularity the handler inspects it; the completion provider is a
    collaborator whose outcome is a parameter. The handler never consults
    the rate limiter. */
module ChatRoute {
  import opened Optional

  const KeyMissingError: string := "OpenAI API key not configured"
  const MessagesRequiredError: string := "Messages array is required"
  const InternalError: string := "Internal server error"
  /** What the V8 engine reports when the handler reads a property of a
      `null` array element. */
  const NullMessageError: string := "Cannot read properties of null (reading 'parts')"
  const NullPartError: string := "Cannot read properties of null (reading 'type')"
  const NullBodyError: string := "Cannot destructure property 'messages' of 'body' as it is null."

  /** An element of `msg.parts`: `null`, or an object whose `type` and
      `text` are strings or absent. */
  datatype RawPart = NullPart | Part(kind: Option<string>, text: Option<string>)

  /** `msg.parts`: an array, or anything else (absent, falsy, not an array). */
  datatype PartsField = NoParts | Parts(parts: seq<RawPart>)

  /** An element of `messages`: `null`, or a value whose `role`, `content`
      (when it is a string) and `parts` are read. A primitive element reads
      as a `Message` with every field absent. */
  datatype RawMessage = NullMessage | Message(role: Option<string>, content: Option<string>, parts: PartsField)

  datatype MessagesField = Absent | NotArray | Array(items: seq<RawMessage>)

  /** The request body: unparseable JSON (with the parser's message),
      `null`, or any other JSON value, of which only `messages` is read. */
  datatype Body = Unparseable(message: string) | NullBody | Value(messages: MessagesField)

  /** `{ role, content }` as forwarded to the provider. */
  datatype Formatted = Formatted(role: Option<string>, content: string)

  datatype Completion = Completed(text: string) | Failed(message: string)

  datatype Payload = Error(error: string) | ErrorDetails(error: string, details: string) | Content(content: string)

  /** The response, and the conversation handed to the provider, if any. */
  datatype Reply = Reply(status: nat, payload: Payload, forwarded: Option<seq<Formatted>>)

  datatype Normalized = Normalized(messages: seq<Formatted>) | Threw(message: string)

  predicate KeepsPart(p: RawPart)
  {
    p.Part? && p.kind == Some("text") && p.text.Some? && p.text.value != ""
  }

  /** `parts.filter(type === 'text' && text).map(text).join('')`. */
  function JoinText(parts: seq<RawPart>): (r: Normalized)
    ensures r.Threw? <==> NullPart in parts
    ensures r.Threw? ==> r.message == NullPartError
    ensures r.Normalized? ==> |r.messages| == 1 && r.messages[0].role == None
  {
    if NullPart in parts then Threw(NullPartError)
    else Normalized([Formatted(None, TextOf(parts))])
  }

  /** The concatenated text of the kept parts (no `null` part present). */
  function TextOf(parts: seq<RawPart>): string
  {
    if parts == [] then ""
    else (if KeepsPart(parts[0]) then parts[0].text.value else "") + TextOf(parts[1..])
  }

  /** Text extraction distributes over concatenation of part lists: each
      kept part contributes its text once, in order. */
  lemma {:induction false} TextOfAppend(a: seq<RawPart>, b: seq<RawPart>)
    ensures TextOf(a + b) == TextOf(a) + TextOf(b)
  {
    if a != [] {
      assert (a + b)[1..] == a[1..] + b;
      TextOfAppend(a[1..], b);
    } else {
      assert a + b == b;
    }
  }

  /** Parts that are not kept contribute nothing. */
  lemma {:induction false} TextOfDropped(parts: seq<RawPart>)
    requires forall i :: 0 <= i < |parts| ==> !KeepsPart(parts[i])
    ensures TextOf(parts) == ""
  {
    if parts != [] {
      TextOfDropped(parts[1..]);
    }
  }

  /** One message: `parts` (when an array) wins over `content`; a non-string
      `content` becomes "". */
  function FormatMessage(m: RawMessage): (r: Normalized)
    ensures m.NullMessage? ==> r == Threw(NullMessageError)
    ensures m.Message? && m.parts.Parts? && NullPart !in m.parts.parts ==>
              r == Normalized([Formatted(m.role, TextOf(m.parts.parts))])
    ensures m.Message? && m.parts.NoParts? ==>
              r == Normalized([Formatted(m.role, m.content.GetOr(""))])
    ensures r.Normalized? ==> |r.messages| == 1
  {
    match m
    case NullMessage => Threw(NullMessageError)
    case Message(role, content, parts) =>
      match parts
      case Parts(ps) =>
        (match JoinText(ps)
         case Threw(e) => Threw(e)
         case Normalized(f) => Normalized([Formatted(role, f[0].content)]))
      case NoParts => Normalized([Formatted(role, content.GetOr(""))])
  }

  /** `messages.map(...)`: the first element that throws aborts the map. */
  function FormatAll(items: seq<RawMessage>): (r: Normalized)
    ensures r.Normalized? ==> |r.messages| == |items|
    ensures r.Normalized? ==> forall i :: 0 <= i < |items| ==>
              FormatMessage(items[i]) == Normalized([r.messages[i]])
    ensures r.Threw? <==> exists i :: 0 <= i < |items| && FormatMessage(items[i]).Threw?
    // the error surfaced is that of the first element that throws
    ensures r.Threw? ==>
              exists i :: 0 <= i < |items| && FormatMessage(items[i]) == r
                          && forall j :: 0 <= j < i ==> FormatMessage(items[j]).Normalized?
  {
    if items == [] then Normalized([])
    else
      match FormatMessage(items[0])
      case Threw(e) => Threw(e)
      case Normalized(first) =>
        match FormatAll(items[1..])
        case Threw(e) => Threw(e)
        case Normalized(rest) =>
          assert forall i :: 1 <= i < |items| ==> items[i] == items[1..][i - 1];
          Normalized(first + rest)
  }

  /** `POST(req)` with `apiKey` the value of OPENAI_API_KEY and `provider`
      what `generateText` yields for the forwarded conversation. */
  function Post(apiKey: Option<string>, body: Body, provider: Completion): (r: Reply)
    // the key is checked before anything else
    ensures apiKey == None || apiKey == Some("") ==>
              r == Reply(500, Error(KeyMissingError), None)
    ensures apiKey.Some? && apiKey.value != "" && body.Value? && !body.messages.Array? ==>
              r == Reply(400, Error(MessagesRequiredError), None)
    // everything thrown after the key check is caught as a 500 with details
    ensures apiKey.Some? && apiKey.value != "" && body.Unparseable? ==>
              r == Reply(500, ErrorDetails(InternalError, body.message), None)
    ensures apiKey.Some? && apiKey.value != "" && body.NullBody? ==>
              r == Reply(500, ErrorDetails(InternalError, NullBodyError), None)
    ensures apiKey.Some? && apiKey.value != "" && body.Value? && body.messages.Array?
            && FormatAll(body.messages.items).Threw? ==>
              r == Reply(500, ErrorDetails(InternalError, FormatAll(body.messages.items).message), None)
    ensures r.status == 400 <==> apiKey.Some? && apiKey.value != "" && body.Value? && !body.messages.Array?
    // the provider is reached only with a key and a well-formed conversation
    ensures r.forwarded.Some? <==>
              apiKey.Some? && apiKey.value != "" && body.Value? && body.messages.Array?
              && FormatAll(body.messages.items).Normalized?
    ensures r.forwarded.Some? ==>
              && |r.forwarded.value| == |body.messages.items|
              // the provider receives exactly the normalised conversation
              && r.forwarded.value == FormatAll(body.messages.items).messages
              && (provider.Completed? ==> r == Reply(200, Content(provider.text), r.forwarded))
              && (provider.Failed? ==> r == Reply(500, ErrorDetails(InternalError, provider.message), r.forwarded))
    ensures r.status == 200 <==> r.forwarded.Some? && provider.Completed?
    ensures r.status in {200, 400, 500}
  {
    if apiKey.None? || apiKey.value == "" then Reply(500, Error(KeyMissingError), None)
    else
      match body
      case Unparseable(e) => Reply(500, ErrorDetails(InternalError, e), None)
      case NullBody => Reply(500, ErrorDetails(InternalError, NullBodyError), None)
      case Value(messages) =>
        if !messages.Array? then Reply(400, Error(MessagesRequiredError), None)
        else
          match FormatAll(messages.items)
          case Threw(e) => Reply(500, ErrorDetails(InternalError, e), None)
          case Normalized(formatted) =>
            match provider
            case Completed(text) => Reply(200, Content(text), Some(formatted))
            case Failed(e) => Reply(500, ErrorDetails(InternalError, e), Some(formatted))
  }

  /** Normalisation keeps every role and, for plain `content` messages,
      every text. */
  lemma ContentMessagesForwardedVerbatim(items: seq<RawMessage>)
    requires forall i :: 0 <= i < |items| ==> items[i].Message? && items[i].parts.NoParts? && items[i].content.Some?
    ensures FormatAll(items).Normalized?
    ensures forall i :: 0 <= i < |items| ==>
              FormatAll(items).messages[i] == Formatted(items[i].role, items[i].content.value)
  {
    var r := FormatAll(items);
    forall i | 0 <= i < |items| ensures FormatMessage(items[i]).Normalized? {
    }
    assert r.Normalized?;
    forall i | 0 <= i < |items|
      ensures r.messages[i] == Formatted(items[i].role, items[i].content.value)
    {
      assert FormatMessage(items[i]) == Normalized([r.messages[i]]);
    }
  }
}
