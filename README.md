# Diabetes assistant backend: chat pipeline and user table

This project models, in Dafny, the two parts of the backend that follow
statable rules.

- **The retrieval-augmented chat endpoint** (`app_backend/api/chat.py`).
  - At start-up the knowledge directory's sorted `*.txt` listing becomes two
    parallel lists, document texts and document names. A single placeholder
    document replaces them when nothing was read.
  - `retrieve` ranks the documents by their similarity to the question and
    keeps the top `k`.
  - `extract_text` digs the answer out of the generation service's JSON
    reply.
  - `ask_gemini` makes an answer or the absence value out of the service's
    reply.
  - The `chat` handler strips and checks the question, builds the context
    and the prompt, applies the fallback answer and lists the sources.
- **Signup and login** (`app_backend/api/auth.py`) over the user table
  (`app_backend/models.py`).
  - Signup refuses a registered email and otherwise commits one new row.
  - Login looks a row up and never changes the table.

Modules, one per component:

| file | module | models |
|---|---|---|
| `wrappers.dfy` | `Wrappers` | `Option`, the absence value (`None`) |
| `json.dfy` | `Json` | a decoded JSON value, Python's `v[key]` / `v[0]` on it, Python truthiness |
| `text.dfy` | `Text` | `str.strip()` and `sep.join(parts)` |
| `knowledge.dfy` | `Knowledge` | the knowledge-base load loop (an imperative method) |
| `retrieval.dfy` | `Retrieval` | the ranking `sims.argsort()[::-1][:k]` and `retrieve` |
| `generator.dfy` | `Generator` | `extract_text` and `ask_gemini`'s outcome decision |
| `chat.dfy` | `Chat` | the prompt and the `chat` handler |
| `auth.dfy` | `Auth` | the user table as a class, `signup` and `login` |

The model treats these as inputs:

- The similarity scores are inputs. For the chat handler they are a function
  `index` from query to one score per document. Scores are `real`.
- The generation service is a function `service` from prompt to `Reply`. A
  reply is a transport failure, or a status with a body that is either not
  JSON or a decoded value.
- The chat handler's result records the calls it made, in order (a
  retrieval for a query, a generation for a prompt). This is how "a blank
  question triggers no retrieval and no generation" is stated.
- Password hashing, password verification and token creation are functions
  given to each call. The module that holds them is not part of this model.
  Because the hash is given per call, a salted hash that differs from call to
  call is covered.
- A new row's id is one past the largest id in the table (1 for an empty
  table). This is how the store assigns a row id to an integer primary key
  without AUTOINCREMENT.
- The table's rows are held in row-id order, and `first()` on an unordered
  query is read as the first matching row in that order.

Three consequences of the code that the model keeps:

- `argsort()[::-1]` uses numpy's default, unstable sort, so no order among
  documents with equal scores is promised. `MaxPos` takes the first maximum,
  but no contract depends on that.
- A status-200 reply without the expected shape gives `extract_text`'s
  "couldn't process" string, not `None`. A failed call (no response,
  non-JSON body, status other than 200) gives `None`. A status-200 reply
  whose text is JSON `null` also makes `ask_gemini` return Python's `None`;
  the model keeps that value as `Some(JNull)`, and the handler's `or` treats
  it exactly as a failed call (`Chat.NullTextLikeFailedCall`).
- `extract_text` returns whatever value sits at
  `candidates[0].content.parts[0].text`, not only a string. The handler's
  `or` then keeps it only when it is truthy in Python's sense. So an empty
  string, `null`, `false`, `0`, `[]` or `{}` gives the handler's own
  fallback.

## Model

| member | source | states |
|---|---|---|
| `Knowledge.Load` | app_backend/api/chat.py:43-53 | afterwards there is at least one document and as many names as documents; a present, non-empty listing gives the stems and texts in listing order; otherwise exactly `["No knowledge base available."]` and `["knowledge"]` |
| `Text.SpanStart` | app_backend/api/chat.py:137 | the left cut skips only whitespace and stops at the first non-whitespace character |
| `Text.SpanEnd` | app_backend/api/chat.py:137 | the right cut skips only whitespace and stops after the last non-whitespace character |
| `Text.Strip` | app_backend/api/chat.py:137 | the stripped question is no longer than the input and neither starts nor ends with whitespace |
| `Text.StripSlice` | app_backend/api/chat.py:137 | the stripped question is a slice of the input with only whitespace around it |
| `Text.StripBlank` | app_backend/api/chat.py:137-138 | a question strips to the empty string exactly when it is all whitespace |
| `Text.StripIdempotent` | app_backend/api/chat.py:137 | stripping a stripped question changes nothing |
| `Text.JoinLength` | app_backend/api/chat.py:142 | a join is as long as all parts plus one separator between each pair of neighbours |
| `Text.JoinPartAt` | app_backend/api/chat.py:142 | each part appears in the join at its offset, in order, followed by exactly one separator unless it is the last |
| `Retrieval.MaxPos` | app_backend/api/chat.py:61 | the chosen position holds a score no smaller than any other in the pool |
| `Retrieval.RemoveAtSpec` | app_backend/api/chat.py:61 | taking one element out of a pool shortens it by one and keeps every other element; a pool without repeats stays without repeats and no longer holds the element |
| `Retrieval.RankFromSpec` | app_backend/api/chat.py:61 | ranking a pool keeps its length and its members, gives no repeats when the pool has none, and lists them in non-increasing score order |
| `Retrieval.IndicesSpec` | app_backend/api/chat.py:61 | the index list holds each of the `n` document indices once |
| `Retrieval.RankSpec` | app_backend/api/chat.py:61 | the full ranking lists every document index exactly once, most similar first |
| `Retrieval.TopIndicesSpec` | app_backend/api/chat.py:61 | the selection has `min(k, n)` distinct in-range indices in descending score order; no document left out scores above a selected one; `k >= n` selects every document |
| `Retrieval.RetrieveSpec` | app_backend/api/chat.py:58-70 | `Retrieve` (`retrieve`) gives `min(k, n)` hits for distinct documents, each hit's name, score and text from the same index, scores non-increasing, nothing left out scoring higher, and all documents when `k >= n` |
| `Generator.ExtractTextSpec` | app_backend/api/chat.py:75-81 | `ExtractText` (`extract_text`) gives the value at `candidates[0].content.parts[0].text` when that path exists, and "I'm sorry, I couldn't process the response." for any missing key, empty list or wrong node type |
| `Generator.AskGeminiSpec` | app_backend/api/chat.py:117-130 | `AskGemini` (`ask_gemini`) gives the model's `None` exactly for a failed call (no response, a body that is not JSON, or a status other than 200); a malformed 200 reply gives the could-not-process string; a well-formed one gives its text, which is `Some(JNull)` when that text is JSON `null` (Python's `None` in the source) |
| `Chat.PiecesAt` | app_backend/api/chat.py:157-166 | each piece of an eight-piece concatenation sits at the sum of the lengths before it |
| `Chat.PromptLayout` | app_backend/api/chat.py:157-166 | `Prompt` (the prompt built at lines 157-166) starts with the persona and ends with the closing directive, and between them holds the context, then the options text, then the label "User question: " followed by the question, in that order and without overlap |
| `Chat.ChatRejectsBlank` | app_backend/api/chat.py:136-139 | `Chat` (the `chat` handler) rejects a question that is empty or all whitespace with 400 "Question is empty", with no retrieval and no generator call; only such questions are rejected |
| `Chat.ChatCalls` | app_backend/api/chat.py:137-170 | for any other question `Chat` answers, after asking the index once, about the stripped question, for 3 documents, and then the generator once, with the prompt over the hits' texts joined by blank lines; the stripped question has no whitespace at either end |
| `Chat.ContextInRankOrder` | app_backend/api/chat.py:141-142 | each hit's text sits in the context at its offset, in rank order, the next one "\n\n" further on |
| `Chat.ChatSources` | app_backend/api/chat.py:141-177 | in `Chat`'s reply the sources match the hits one for one in rank order (name and score), at most three and fewer only when there are fewer documents, with non-increasing scores |
| `Chat.ChatAnswer` | app_backend/api/chat.py:169-170 | `FinalAnswer` (line 170): a failed call or a falsy text gives "I'm sorry, I could not get a response."; a malformed 200 reply gives the line-81 string, which differs from it; a truthy text is the answer |
| `Chat.NullTextLikeFailedCall` | app_backend/api/chat.py:79-170 | a status-200 reply whose text is JSON `null` gives `Some(JNull)` from `AskGemini`, and the handler's final answer for it is the same as for a failed call |
| `Chat.FallbacksDiffer` | app_backend/api/chat.py:170 | the handler's fallback differs from `extract_text`'s fallback |
| `Auth.FirstWithEmail` | app_backend/api/auth.py:12-13 | the lookup finds the first row with the email, and finds nothing exactly when no row has it |
| `Auth.NextId` | app_backend/models.py:6 | the next row id is positive and above every existing id |
| `Auth.SignupSpec` | app_backend/api/auth.py:11-22 | `SignupOn` (`signup`): a registered email gives 400 "Email already registered" and an unchanged table; a new email appends exactly one row holding the email and `hash(password)` under a fresh id, keeps all existing rows, and issues a bearer token created from the email and that id |
| `Auth.LoginSpec` | app_backend/api/auth.py:25-31 | `LoginOn` (`login`): an unknown email gives 401 "Invalid credentials"; otherwise the first row with the email decides: the password it rejects gives 401, the one it accepts gives a bearer token for that row; a token implies some row with the email accepts the password |
| `Auth.SignupKeepsUnique` | app_backend/api/auth.py:12-19 | one signup keeps unique emails unique and keeps the rows in strictly ascending row-id order |
| `Auth.FirstWithEmailLowestId` | app_backend/api/auth.py:12-13 | with the rows in row-id order, the row found for an email has the smallest id among the rows with that email |
| `Auth.SignupsKeepEmailsUnique` | app_backend/api/auth.py:12-19 | starting from unique emails, any sequence of signups through the endpoint keeps emails unique (the table itself has no unique constraint on `email`) |
| `Auth.SignupThenLogin` | app_backend/api/auth.py:11-31 | after a successful signup, logging in with the same email and password issues a bearer token created from the same email and the new row's id, when the verifier accepts a password against its own hash; the token creator may differ between the two calls |
| `Auth.UserStore.constructor` | app_backend/models.py:5-9 | the store holds the given rows, in strictly ascending row-id order (so the primary keys are distinct) |
| `Auth.UserStore.Signup` | app_backend/api/auth.py:11-22 | the table and response after the call are those `SignupOn` gives for the old table; the rows stay in strictly ascending row-id order, and unique emails stay unique |
| `Auth.UserStore.Login` | app_backend/api/auth.py:25-31 | over a table in row-id order, the response is `LoginOn` over the current table, any refusal is 401 "Invalid credentials", and the method may change nothing |

## Left out

- TF-IDF vectorisation and cosine similarity are floating-point library numerics. The scores are an input, one real per document.
- Retrieval.RetrieveSpec: promises no order among documents with equal scores, because numpy's unstable sort followed by a reversal fixes none.
- Chat.ChatSources: each source's score is kept as its number. Formatting it to four decimals (`f"{score:.4f}"`) is not modelled.
- The HTTP request to the generation service is not modelled: payload constants, API key, URL, the 15-second timeout, the diagnostic `print` calls and `.env` loading. Its outcome is the `Reply` input.
- Reading the knowledge directory is left out: globbing, sorting paths, opening files, decoding UTF-8. The sorted listing is an input. A read error during loading is not modelled.
- Response validation of a non-string answer by the web framework (when the text at the path is, say, a number) is not modelled. The model's answer is the JSON value itself.
- `retrieve`'s `k` is a natural number. The handler always passes 3, so a negative `k` (Python's from-the-end slice) is not modelled.
- Password hashing, password verification and JWT creation are not modelled. They are function parameters.
- The `created_at` timestamp of a user row is left out, because it reads the clock.
- Database failures on commit, and concurrent signups racing between the lookup and the commit, are left out. Only the sequential behaviour is modelled.
- The risk predictor (`app_backend/api/predict.py`), the offline training and test scripts, routing, database engine setup, the request schemas and the browser script are not part of this model. They are library calls or glue.
