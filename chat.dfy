/**
 * The chat endpoint: strip and check the question, retrieve the three
 * closest documents, compose the prompt, ask the generator and shape the
 * answer with its ranked sources. The similarity scores of the index and
 * the reply of the generation service are functions given to the handler;
 * the handler's result records which of them it consulted, and with what.
 */
module Chat {
  import opened Wrappers
  import opened Json
  import opened Text
  import opened Knowledge
  import opened Retrieval
  import opened Generator

  const QuestionEmpty: string := "Question is empty"

  /** The handler's own fallback, for a generator call that gave nothing usable. */
  const NoResponse: string := "I'm sorry, I could not get a response."

  /** How many documents the handler retrieves. */
  const TopK: nat := 3

  const ContextSeparator: string := "\n\n"

  /** The fixed text of the prompt, around the context and the question. */
  datatype PromptText = PromptText(persona: string, options: string, questionLabel: string, closing: string)

  const Template: PromptText := PromptText(
    "You are a professional AI medical assistant specializing in diabetes. ANswer every question like you are a human. and answer it like you are diabetes doctor. and your name is ali. your AI Chatbot\n"
    + "Use the following reference knowledge:\n",
    "Provide guidance using these options if relevant:\n"
    + "1. Lifestyle changes (diet, exercise)\n"
    + "2. Medication guidance\n"
    + "3. Monitoring blood glucose\n"
    + "4. Preventing complications\n"
    + "5. Resources (ADA, CDC, NHS, WHO)\n"
    + "6. Other advice\n",
    "User question: ",
    "Give a short, medically helpful answer in 3\U{2013}4 sentences maximum. "
    + "Do NOT write long explanations."
    + "Write in the end in short. This chatbot is only Educational purpose.")

  /** The blank line that ends the context. */
  const ContextEnd: string := "\n\n"

  /**
   * The prompt, by concatenation: persona, context, a blank line, options,
   * a line break, the labelled question, a line break, the closing directive.
   */
  function Prompt(t: PromptText, context: string, question: string): (prompt: string)
  {
    t.persona + context + ContextEnd + t.options + "\n" + t.questionLabel + question + "\n" + t.closing
  }

  /** `s[at..]` begins with `t`. */
  predicate OccursAt(s: string, t: string, at: nat)
  {
    at + |t| <= |s| && s[at..at + |t|] == t
  }

  /** Where each piece of an eight-piece concatenation sits. */
  lemma PiecesAt(a: string, b: string, c: string, d: string, e: string, f: string, g: string, h: string)
    ensures var p := a + b + c + d + e + f + g + h;
      && OccursAt(p, a, 0)
      && OccursAt(p, b, |a|)
      && OccursAt(p, c, |a| + |b|)
      && OccursAt(p, d, |a| + |b| + |c|)
      && OccursAt(p, e, |a| + |b| + |c| + |d|)
      && OccursAt(p, f, |a| + |b| + |c| + |d| + |e|)
      && OccursAt(p, g, |a| + |b| + |c| + |d| + |e| + |f|)
      && |p| == |a| + |b| + |c| + |d| + |e| + |f| + |g| + |h|
      && OccursAt(p, h, |p| - |h|)
  {
    var p := a + b + c + d + e + f + g + h;
    assert p == a + (b + (c + (d + (e + (f + (g + h))))));
    assert p[|a|..] == b + (c + (d + (e + (f + (g + h)))));
    assert p[|a| + |b|..] == c + (d + (e + (f + (g + h))));
    assert p[|a| + |b| + |c|..] == d + (e + (f + (g + h)));
    assert p[|a| + |b| + |c| + |d|..] == e + (f + (g + h));
    assert p[|a| + |b| + |c| + |d| + |e|..] == f + (g + h);
    assert p[|a| + |b| + |c| + |d| + |e| + |f|..] == g + h;
    assert p == (a + b + c + d + e + f + g) + h;
  }

  /**
   * The prompt opens with the persona and ends with the closing directive;
   * between them come, in this order and without overlapping, the context
   * (right after the persona), the options text (after the blank line that
   * ends the context), and the label followed by the question (on the line
   * after the options).
   */
  lemma PromptLayout(t: PromptText, context: string, question: string)
    ensures var p := Prompt(t, context, question);
      var j := |t.persona| + |context| + |ContextEnd|;
      var l := j + |t.options| + 1;
      && OccursAt(p, t.persona, 0)
      && OccursAt(p, context, |t.persona|)
      && OccursAt(p, t.options, j)
      && OccursAt(p, t.questionLabel + question, l)
      && l + |t.questionLabel + question| + |t.closing| <= |p|
      && OccursAt(p, t.closing, |p| - |t.closing|)
  {
    PiecesAt(t.persona, context, ContextEnd, t.options, "\n", t.questionLabel + question, "\n", t.closing);
  }

  /** A call the handler makes on its collaborators. */
  datatype Call = RetrievalCall(query: string, k: nat) | GenerationCall(prompt: string)

  /** One entry of the response's source list (the score is kept as a number; see the README). */
  datatype Source = Source(source: string, score: real)

  datatype ChatResponse =
    | Rejected(status: nat, detail: string)
    | Replied(answer: Value, sources: seq<Source>)

  /** The handler's response, and the calls it made to produce it, in order. */
  datatype Exchange = Exchange(response: ChatResponse, calls: seq<Call>)

  function HitTexts(hits: seq<Hit>): (texts: seq<string>)
  {
    seq(|hits|, i requires 0 <= i < |hits| => hits[i].text)
  }

  function SourcesOf(hits: seq<Hit>): (sources: seq<Source>)
  {
    seq(|hits|, i requires 0 <= i < |hits| => Source(hits[i].name, hits[i].score))
  }

  /** `ask_gemini(prompt) or NoResponse`: Python's `or` keeps the left operand only when it is truthy. */
  function FinalAnswer(generated: Option<Value>): (answer: Value)
  {
    if generated.Some? && Truthy(generated.value) then generated.value else JString(NoResponse)
  }

  /** The `chat` handler. `index(q)` is the similarity of `q` to each document; `service(p)` the reply to prompt `p`. */
  function Chat(kb: KnowledgeBase, index: string -> seq<real>, service: string -> Reply, question: string): (exchange: Exchange)
    requires kb.Valid()
    requires Strip(question) != [] ==> |index(Strip(question))| == |kb.docs|
  {
    var q := Strip(question);
    if q == [] then Exchange(Rejected(400, QuestionEmpty), [])
    else
      var hits := Retrieve(kb, index(q), TopK);
      var context := Join(ContextSeparator, HitTexts(hits));
      var prompt := Prompt(Template, context, q);
      var answer := FinalAnswer(AskGemini(service(prompt)));
      Exchange(Replied(answer, SourcesOf(hits)), [RetrievalCall(q, TopK), GenerationCall(prompt)])
  }

  /**
   * A question that is empty or all whitespace is rejected with 400
   * "Question is empty" before anything is retrieved or generated, and only
   * such a question is rejected.
   */
  lemma ChatRejectsBlank(kb: KnowledgeBase, index: string -> seq<real>, service: string -> Reply, question: string)
    requires kb.Valid()
    requires Strip(question) != [] ==> |index(Strip(question))| == |kb.docs|
    ensures Chat(kb, index, service, question).response.Rejected? <==> AllSpace(question)
    ensures AllSpace(question) ==>
      Chat(kb, index, service, question) == Exchange(Rejected(400, QuestionEmpty), [])
  {
    StripBlank(question);
  }

  /**
   * For any other question the handler answers, after asking the index
   * once, about the stripped question, for the three best documents, and
   * then the generator once, with the prompt built over the hits' texts
   * joined by blank lines.
   */
  lemma ChatCalls(kb: KnowledgeBase, index: string -> seq<real>, service: string -> Reply, question: string)
    requires kb.Valid()
    requires !AllSpace(question)
    requires |index(Strip(question))| == |kb.docs|
    ensures var q := Strip(question);
      var hits := Retrieve(kb, index(q), TopK);
      var ex := Chat(kb, index, service, question);
      && q != [] && !IsSpace(q[0]) && !IsSpace(q[|q| - 1])
      && ex.response.Replied?
      && ex.calls == [RetrievalCall(q, TopK), GenerationCall(Prompt(Template, Join(ContextSeparator, HitTexts(hits)), q))]
  {
    StripBlank(question);
  }

  /**
   * The context holds the hits' texts in rank order: each at its offset,
   * the next one a blank line further on.
   */
  lemma ContextInRankOrder(hits: seq<Hit>)
    ensures var texts := HitTexts(hits);
      var context := Join(ContextSeparator, texts);
      && (forall i :: 0 <= i < |hits| ==> OccursAt(context, hits[i].text, Offset(ContextSeparator, texts, i)))
      && (forall i :: 0 <= i < |hits| - 1 ==>
            Offset(ContextSeparator, texts, i) + |hits[i].text| + |ContextSeparator| == Offset(ContextSeparator, texts, i + 1))
  {
    var texts := HitTexts(hits);
    forall i | 0 <= i < |hits|
      ensures OccursAt(Join(ContextSeparator, texts), hits[i].text, Offset(ContextSeparator, texts, i))
      ensures i < |hits| - 1 ==>
        Offset(ContextSeparator, texts, i) + |hits[i].text| + |ContextSeparator| == Offset(ContextSeparator, texts, i + 1)
    {
      JoinPartAt(ContextSeparator, texts, i);
    }
  }

  /**
   * The sources follow the hits one for one, in rank order: at most three
   * of them (fewer only when there are fewer documents), each naming its
   * hit's document, with non-increasing scores.
   */
  lemma ChatSources(kb: KnowledgeBase, index: string -> seq<real>, service: string -> Reply, question: string)
    requires kb.Valid()
    requires !AllSpace(question)
    requires |index(Strip(question))| == |kb.docs|
    ensures var hits := Retrieve(kb, index(Strip(question)), TopK);
      var ex := Chat(kb, index, service, question);
      && ex.response.Replied?
      && |ex.response.sources| == |hits| == Min(TopK, |kb.docs|)
      && (forall i :: 0 <= i < |hits| ==> ex.response.sources[i] == Source(hits[i].name, hits[i].score))
      && (forall i, j :: 0 <= i < j < |hits| ==> ex.response.sources[i].score >= ex.response.sources[j].score)
  {
    StripBlank(question);
    RetrieveSpec(kb, index(Strip(question)), TopK);
  }

  /**
   * The answer: a call that failed, or whose text is empty (or otherwise
   * falsy), gives the handler's fallback; a reply received with status 200
   * but without the expected shape gives the generator's could-not-process
   * string, which is a different string; a well-formed reply with a
   * non-empty text gives that text.
   */
  lemma ChatAnswer(kb: KnowledgeBase, index: string -> seq<real>, service: string -> Reply, question: string)
    requires kb.Valid()
    requires !AllSpace(question)
    requires |index(Strip(question))| == |kb.docs|
    ensures var q := Strip(question);
      var hits := Retrieve(kb, index(q), TopK);
      var reply := service(Prompt(Template, Join(ContextSeparator, HitTexts(hits)), q));
      var answer := Chat(kb, index, service, question).response.answer;
      && (Classify(reply) == Failed ==> answer == JString(NoResponse))
      && (Classify(reply) == Malformed ==> answer == JString(CouldNotProcess) && answer != JString(NoResponse))
      && (Classify(reply).Answered? && Truthy(Classify(reply).text) ==> answer == Classify(reply).text)
      && (Classify(reply).Answered? && !Truthy(Classify(reply).text) ==> answer == JString(NoResponse))
  {
    StripBlank(question);
    var q := Strip(question);
    var hits := Retrieve(kb, index(q), TopK);
    var reply := service(Prompt(Template, Join(ContextSeparator, HitTexts(hits)), q));
    assert Chat(kb, index, service, question).response.answer == FinalAnswer(AskGemini(reply));
    AskGeminiSpec(reply);
    FallbacksDiffer();
  }

  /**
   * A 200 reply whose text is JSON `null` makes `ask_gemini` return Python's
   * `None` just as a failed call does; the model keeps it as `Some(JNull)`,
   * and the handler's `or` gives the same final answer for both.
   */
  lemma NullTextLikeFailedCall(reply: Reply)
    requires Classify(reply) == Answered(JNull)
    ensures AskGemini(reply) == Some(JNull)
    ensures FinalAnswer(AskGemini(reply)) == FinalAnswer(None) == JString(NoResponse)
  {
    AskGeminiSpec(reply);
  }

  /** The two fallback strings can be told apart. */
  lemma FallbacksDiffer()
    ensures CouldNotProcess != NoResponse
  {
    assert CouldNotProcess[18] != NoResponse[18];
  }
}
