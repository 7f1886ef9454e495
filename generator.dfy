/**
 * The answer generator: what `ask_gemini` makes of the reply of the
 * external text-generation service, and `extract_text`, which digs the
 * answer out of a decoded reply. The HTTP request itself is outside the
 * model; its outcome is the input `Reply`.
 */
module Generator {
  import opened Wrappers
  import opened Json

  /** The fallback of `extract_text`, for a reply that arrived but has no answer where expected. */
  const CouldNotProcess: string := "I'm sorry, I couldn't process the response."

  /** What came back: no response at all (connection error, timeout), or a status and a body. */
  datatype Reply = TransportFailure | Response(status: int, body: Body)

  /** The body as `r.json()` sees it: not JSON (it raises), or a decoded value. */
  datatype Body = NotJson | Decoded(data: Value)

  /**
   * `resp["candidates"][0]["content"]["parts"][0]["text"]`, each step
   * a Python subscript that either succeeds or raises.
   */
  function TextLookup(resp: Value): (found: Option<Value>)
  {
    var candidates := Member(resp, "candidates");
    if candidates.None? then None else
    var cand := First(candidates.value);
    if cand.None? then None else
    var content := Member(cand.value, "content");
    if content.None? then None else
    var parts := Member(content.value, "parts");
    if parts.None? then None else
    var part := First(parts.value);
    if part.None? then None else
    Member(part.value, "text")
  }

  /** `extract_text(resp)`: the value on the path, or the fallback if any step raises. */
  function ExtractText(resp: Value): (text: Value)
  {
    match TextLookup(resp)
    case Some(v) => v
    case None => JString(CouldNotProcess)
  }

  /**
   * The reply shape the service documents: an object whose "candidates"
   * list starts with an object whose "content" object has a "parts" list
   * starting with an object whose "text" member is `v`.
   */
  ghost predicate AnswerAt(resp: Value, v: Value)
  {
    && resp.JObject? && "candidates" in resp.fields
    && var candidates := resp.fields["candidates"];
    && candidates.JArray? && |candidates.items| > 0
    && var cand := candidates.items[0];
    && cand.JObject? && "content" in cand.fields
    && var content := cand.fields["content"];
    && content.JObject? && "parts" in content.fields
    && var parts := content.fields["parts"];
    && parts.JArray? && |parts.items| > 0
    && var part := parts.items[0];
    && part.JObject? && "text" in part.fields
    && part.fields["text"] == v
  }

  /**
   * `extract_text` returns the value at the documented path when the path
   * exists, and the fallback string whenever it does not: a missing key,
   * an empty list, or a node of the wrong type (a string where a list was
   * expected included).
   */
  lemma ExtractTextSpec(resp: Value)
    ensures forall v :: AnswerAt(resp, v) ==> ExtractText(resp) == v
    ensures (forall v :: !AnswerAt(resp, v)) ==> ExtractText(resp) == JString(CouldNotProcess)
  {
    var candidates := Member(resp, "candidates");
    if candidates.Some? && First(candidates.value).Some? {
      var cand := First(candidates.value).value;
      if candidates.value.JString? {
        assert cand.JString?;
        assert TextLookup(resp).None?;
      }
      var content := Member(cand, "content");
      if content.Some? {
        var parts := Member(content.value, "parts");
        if parts.Some? && First(parts.value).Some? {
          var part := First(parts.value).value;
          if parts.value.JString? {
            assert part.JString?;
            assert TextLookup(resp).None?;
          }
          if TextLookup(resp).Some? {
            assert AnswerAt(resp, TextLookup(resp).value);
          }
        }
      }
    }
  }

  /**
   * `ask_gemini`: no response, a body that is not JSON (decoding comes
   * before the status check) and any status other than 200 all give
   * `None`; status 200 gives what `extract_text` makes of the body. A text
   * that is JSON `null` is Python's `None` in the source; here it stays
   * `Some(JNull)`, which the handler treats like `None`.
   */
  function AskGemini(reply: Reply): (answer: Option<Value>)
  {
    match reply
    case TransportFailure => None
    case Response(status, body) =>
      match body
      case NotJson => None
      case Decoded(data) => if status != 200 then None else Some(ExtractText(data))
  }

  /** The three ways a call can end, told apart by the reply alone. */
  datatype Outcome = Failed | Malformed | Answered(text: Value)

  ghost function Classify(reply: Reply): (outcome: Outcome)
  {
    if !(reply.Response? && reply.status == 200 && reply.body.Decoded?) then Failed
    else if exists v :: AnswerAt(reply.body.data, v) then
      var v :| AnswerAt(reply.body.data, v); Answered(v)
    else Malformed
  }

  /**
   * The absence value is returned exactly for a failed call; a received but
   * malformed reply gives the could-not-process string; a well-formed one
   * gives its text.
   */
  lemma AskGeminiSpec(reply: Reply)
    ensures AskGemini(reply).None? <==> Classify(reply) == Failed
    ensures Classify(reply) == Malformed ==> AskGemini(reply) == Some(JString(CouldNotProcess))
    ensures Classify(reply).Answered? ==> AskGemini(reply) == Some(Classify(reply).text)
  {
    if reply.Response? && reply.status == 200 && reply.body.Decoded? {
      ExtractTextSpec(reply.body.data);
    }
  }
}
