/**
 * The "Absenden" handler: the retrieved texts are listed under the root
 * prompt as the system prompt of a chat completion, and a question that is
 * answered adds a user turn and a bot turn to the session's transcript.
 */
module Chat {
  import opened Common
  import opened Batching
  import opened Ranking

  /** The instructions that open every system prompt. */
  const ROOT_PROMPT: string :=
    "Du bist ein hilfsbereiter, präziser und verständlicher Chatbot, spezialisiert auf die Informationen der Social Map Berlin.\n"
    + "Nutze ausschließlich die bereitgestellten Kontextinformationen, um die Nutzerfrage zu beantworten.\n"
    + "Wenn du keine passende Information findest, erkläre dies höflich und verweise darauf, dass nur die Social Map-Daten verwendet werden.\n"
    + "Antworten sollen sachlich, freundlich und in einer klaren Sprache formuliert sein.\n"
    + "Die Originalstruktur des Datensatzes beinhaltet folgende Spalten: title, image, state, tags, primaryTopic, location, address, zip, city, latitude, longitude, responsible, website, email, contact, phone, facebook, lastEditDate, mobile, proposalFor, resubmissionDate, resubmissionNotification, twitter, whatsapp, apiKeyUsed, instagram, location_ref, projectEndDate, projectStartDate, telegram, vimeo, youtube, id, brief.de, brief.en, description.de, description.en, hours.de, hours.en, proposals, sponsors.\n"
    + "Wenn du über ein Angebot sprichst, schau ob du einen passenden Link finden kannst."

  /** The chat model the question is sent to. */
  const CHAT_MODEL: string := "gpt-4o-mini"

  // -------------------------------------------------------- system prompt

  /** The root prompt, a blank line and the heading of the context section. */
  function ContextHeader(root: string): (header: string)
    ensures root <= header && |header| == |root| + 24
    ensures header[|root|..] == "\n\nKontextinformationen:\n"
  {
    root + "\n\nKontextinformationen:\n"
  }

  /** The context line of one retrieved text. */
  function Bullet(info: string): string {
    "- " + info + "\n"
  }

  /** The number of characters of all retrieved texts together. */
  function TextLength(infos: seq<string>): nat {
    if infos == [] then 0 else |infos[0]| + TextLength(infos[1..])
  }

  /**
   * The context lines of all retrieved texts, in retrieval order: each text
   * with its three characters `- ` and the newline, and nothing else.
   */
  function Bullets(infos: seq<string>): (lines: string)
    ensures |lines| == 3 * |infos| + TextLength(infos)
    ensures lines == [] <==> infos == []
  {
    if infos == [] then "" else Bullet(infos[0]) + Bullets(infos[1..])
  }

  /** The context lines of two runs of texts are those of the first followed by those of the second. */
  lemma {:induction false} BulletsConcat(first: seq<string>, second: seq<string>)
    ensures Bullets(first + second) == Bullets(first) + Bullets(second)
  {
    if first == [] {
      assert first + second == second;
    } else {
      assert (first + second)[0] == first[0];
      assert (first + second)[1..] == first[1..] + second;
      BulletsConcat(first[1..], second);
    }
  }

  /**
   * The line of the `k`-th retrieved text sits between the lines of the
   * texts before it and those of the texts after it.
   */
  lemma {:induction false} BulletsSplit(infos: seq<string>, k: nat)
    requires k < |infos|
    ensures Bullets(infos) == Bullets(infos[..k]) + Bullet(infos[k]) + Bullets(infos[k + 1..])
  {
    var before, after := infos[..k], infos[k + 1..];
    var rest := [infos[k]] + after;
    assert rest[0] == infos[k] && rest[1..] == after;
    assert Bullets(rest) == Bullet(infos[k]) + Bullets(after);
    assert infos == before + rest;
    BulletsConcat(before, rest);
  }

  /** One more retrieved text adds its line at the end. */
  lemma {:induction false} BulletsAppend(infos: seq<string>, info: string)
    ensures Bullets(infos + [info]) == Bullets(infos) + Bullet(info)
  {
    if infos == [] {
      assert infos + [info] == [info];
      assert Bullets([info]) == Bullet(info) + Bullets([]);
    } else {
      assert (infos + [info])[0] == infos[0];
      assert (infos + [info])[1..] == infos[1..] + [info];
      BulletsAppend(infos[1..], info);
    }
  }

  /**
   * The loop that grows `system_prompt`: the header, then one line per
   * retrieved text, in order.
   */
  method BuildSystemPrompt(root: string, infos: seq<string>) returns (prompt: string)
    ensures prompt == ContextHeader(root) + Bullets(infos)
  {
    prompt := root + "\n\nKontextinformationen:\n";
    for k := 0 to |infos|
      invariant prompt == ContextHeader(root) + Bullets(infos[..k])
    {
      BulletsAppend(infos[..k], infos[k]);
      assert infos[..k + 1] == infos[..k] + [infos[k]];
      prompt := prompt + "- " + infos[k] + "\n";
    }
    assert infos[..|infos|] == infos;
  }

  /** Reads context lines back: None when the text is not a sequence of `- ...` lines. */
  function ParseBullets(s: string): Option<seq<string>>
    decreases |s|
  {
    if s == [] then Some([])
    else if |s| < 2 || s[..2] != "- " then None
    else
      match SplitAtNewline(s[2..])
      case None => None
      case Some(parts) =>
        assert |parts.1| < |s|;
        match ParseBullets(parts.1)
        case None => None
        case Some(rest) => Some([parts.0] + rest)
  }

  /** Retrieved texts without a newline can be read back from their context lines. */
  lemma {:induction false} BulletsParseBack(infos: seq<string>)
    requires forall i :: 0 <= i < |infos| ==> '\n' !in infos[i]
    ensures ParseBullets(Bullets(infos)) == Some(infos)
  {
    if infos != [] {
      var s := Bullets(infos);
      var rest := Bullets(infos[1..]);
      assert s == "- " + (infos[0] + "\n" + rest);
      assert s[..2] == "- " && s[2..] == infos[0] + "\n" + rest;
      SplitAfterLine(infos[0], rest);
      BulletsParseBack(infos[1..]);
      assert [infos[0]] + infos[1..] == infos;
    }
  }

  /**
   * Retrieved texts that contain a newline (every corpus text does, between
   * title and description) cannot always be told apart in the context
   * section: one text holding a line that starts with "- " reads the same
   * as two texts.
   */
  lemma ContextLinesAmbiguous()
    ensures Bullets(["A\n- B"]) == Bullets(["A", "B"])
  {
    assert Bullets(["A", "B"]) == Bullet("A") + Bullets(["B"]);
    assert Bullets(["B"]) == Bullet("B") + Bullets([]);
  }

  /**
   * The system prompt starts with the root prompt and the context header;
   * with no retrieved texts it is exactly that; it grows by one line per
   * retrieved text.
   */
  lemma {:induction false} SystemPromptShape(root: string, infos: seq<string>)
    ensures ContextHeader(root) <= ContextHeader(root) + Bullets(infos)
    ensures root <= ContextHeader(root) + Bullets(infos)
    ensures infos == [] ==> ContextHeader(root) + Bullets(infos) == root + "\n\nKontextinformationen:\n"
    ensures |Bullets(infos)| >= 3 * |infos|
    ensures |ContextHeader(root) + Bullets(infos)| == |root| + 24 + 3 * |infos| + TextLength(infos)
  {
    var p := ContextHeader(root) + Bullets(infos);
    assert p[..|ContextHeader(root)|] == ContextHeader(root);
    assert p[..|root|] == root;
  }

  // ------------------------------------------------------------- requests

  /** One chat message of the request. */
  datatype Message = Message(role: string, content: string)

  /** The arguments of `client.chat.completions.create`. */
  datatype CompletionRequest = CompletionRequest(model: string, messages: seq<Message>)

  /**
   * The chat-completion service: the content of the first choice, or None
   * when the call raised.
   */
  type ChatService = CompletionRequest -> Option<string>

  /** The request for a question under a system prompt. */
  function Request(systemPrompt: string, question: string): (r: CompletionRequest)
    ensures r.model == CHAT_MODEL && |r.messages| == 2
    ensures r.messages[0] == Message("system", systemPrompt) && r.messages[1] == Message("user", question)
  {
    CompletionRequest(CHAT_MODEL, [Message("system", systemPrompt), Message("user", question)])
  }

  // ----------------------------------------------------------- transcript

  datatype Speaker = User | Bot

  /** One entry of `chat_history`. */
  datatype Turn = Turn(speaker: Speaker, message: string)

  /**
   * The transcript alternates a user turn with a non-empty question and the
   * bot turn answering it, starting with a user turn and ending with a bot
   * turn.
   */
  predicate WellFormed(history: seq<Turn>) {
    && |history| % 2 == 0
    && forall k :: 0 <= k < |history| ==>
         && (history[k].speaker == User <==> k % 2 == 0)
         && (k % 2 == 0 ==> history[k].message != "")
  }

  /** Everything a submit depends on besides the transcript: the corpus and the services. */
  datatype Context = Context(texts: seq<string>, embeddings: seq<Vector>, embedQuery: QueryEmbedder,
                             similarity: Similarity, chat: ChatService)

  /** The retrieved texts for a question, or None when retrieval raised. */
  function Retrieve(ctx: Context, question: string): (r: Option<seq<string>>)
    ensures ctx.embedQuery(question).None? ==> r.None?
    ensures ctx.embedQuery(question).Some? && |ctx.embeddings| <= |ctx.texts| ==> r.Some?
    ensures r.Some? ==> |r.value| == Min(DEFAULT_TOP_K, |ctx.embeddings|)
    ensures r.Some? ==> forall k :: 0 <= k < |r.value| ==> r.value[k] in ctx.texts
  {
    FindRelevantTexts(question, ctx.texts, ctx.embeddings, ctx.embedQuery, ctx.similarity, DEFAULT_TOP_K)
  }

  /** The transcript after pressing "Absenden" with `input`. */
  function SubmitSpec(history: seq<Turn>, root: string, input: string, ctx: Context): (h: seq<Turn>)
    ensures history <= h
    ensures h == history || (input != "" && |h| == |history| + 2 && h[|history|] == Turn(User, input) && h[|history| + 1].speaker == Bot)
  {
    if input == "" then history
    else
      match Retrieve(ctx, input)
      case None => history
      case Some(infos) =>
        match ctx.chat(Request(ContextHeader(root) + Bullets(infos), input))
        case None => history
        case Some(answer) => history + [Turn(User, input), Turn(Bot, answer)]
  }

  /**
   * A submit either leaves the transcript as it was (always for an empty
   * input, and when retrieval or the completion raised) or appends exactly
   * the question as a user turn and then the service's answer as a bot turn.
   */
  lemma SubmitAppendsPair(history: seq<Turn>, root: string, input: string, ctx: Context)
    ensures var h := SubmitSpec(history, root, input, ctx);
      && (input == "" ==> h == history)
      && (h == history || |h| == |history| + 2)
      && (|h| == |history| + 2 ==>
            && input != "" && Retrieve(ctx, input).Some?
            && h[..|history|] == history
            && h[|history|] == Turn(User, input)
            && h[|history| + 1] == Turn(Bot, ctx.chat(Request(ContextHeader(root) + Bullets(Retrieve(ctx, input).value), input)).value))
    ensures input == "" || Retrieve(ctx, input).None? ==> SubmitSpec(history, root, input, ctx) == history
    ensures input != "" && Retrieve(ctx, input).Some? ==>
      var answer := ctx.chat(Request(ContextHeader(root) + Bullets(Retrieve(ctx, input).value), input));
      && (answer.None? ==> SubmitSpec(history, root, input, ctx) == history)
      && (answer.Some? ==> SubmitSpec(history, root, input, ctx) == history + [Turn(User, input), Turn(Bot, answer.value)])
  {
  }

  /** Appending a non-empty question and its answer keeps the transcript well formed. */
  lemma AppendPairKeepsWellFormed(history: seq<Turn>, input: string, answer: string)
    requires WellFormed(history) && input != ""
    ensures WellFormed(history + [Turn(User, input), Turn(Bot, answer)])
  {
    var h, n := history + [Turn(User, input), Turn(Bot, answer)], |history|;
    forall k | 0 <= k < |h|
      ensures (h[k].speaker == User <==> k % 2 == 0) && (k % 2 == 0 ==> h[k].message != "")
    {
      if k < n {
        assert h[k] == history[k];
      } else if k == n {
        assert h[k] == Turn(User, input) && k % 2 == 0;
      } else {
        assert h[k] == Turn(Bot, answer) && k % 2 == 1;
      }
    }
  }

  /** A submit keeps the transcript well formed. */
  lemma SubmitKeepsWellFormed(history: seq<Turn>, root: string, input: string, ctx: Context)
    requires WellFormed(history)
    ensures WellFormed(SubmitSpec(history, root, input, ctx))
  {
    var h := SubmitSpec(history, root, input, ctx);
    if h != history {
      SubmitAppendsPair(history, root, input, ctx);
      AppendPairKeepsWellFormed(history, input, h[|history| + 1].message);
      assert h == history + [Turn(User, input), Turn(Bot, h[|history| + 1].message)];
    }
  }

  /** The transcript after submitting `inputs` one after the other. */
  function Replay(history: seq<Turn>, root: string, inputs: seq<string>, ctx: Context): seq<Turn>
    decreases |inputs|
  {
    if inputs == [] then history else Replay(SubmitSpec(history, root, inputs[0], ctx), root, inputs[1..], ctx)
  }

  /**
   * Over any number of submits the transcript only grows at its end, by at
   * most two turns per submit, and stays well formed.
   */
  lemma {:induction false} ReplayKeepsPrefix(history: seq<Turn>, root: string, inputs: seq<string>, ctx: Context)
    requires WellFormed(history)
    ensures var h := Replay(history, root, inputs, ctx);
      history <= h && |h| <= |history| + 2 * |inputs| && WellFormed(h)
    decreases |inputs|
  {
    if inputs != [] {
      var next := SubmitSpec(history, root, inputs[0], ctx);
      SubmitAppendsPair(history, root, inputs[0], ctx);
      SubmitKeepsWellFormed(history, root, inputs[0], ctx);
      ReplayKeepsPrefix(next, root, inputs[1..], ctx);
    }
  }

  /** `st.session_state.chat_history` */
  class Session {
    var history: seq<Turn>

    predicate Valid()
      reads this
    {
      WellFormed(history)
    }

    constructor()
      ensures history == [] && Valid()
    {
      history := [];
    }

    /**
     * Pressing "Absenden" with `input`. `request` is the completion request
     * sent, if one was.
     */
    method Submit(input: string, ctx: Context) returns (request: Option<CompletionRequest>)
      requires Valid()
      modifies this
      ensures Valid()
      ensures history == SubmitSpec(old(history), ROOT_PROMPT, input, ctx)
      ensures input == "" ==> request.None?
      ensures request.Some? <==> input != "" && Retrieve(ctx, input).Some?
      ensures request.Some? ==>
        request.value == Request(ContextHeader(ROOT_PROMPT) + Bullets(Retrieve(ctx, input).value), input)
    {
      request := SubmitUnder(ROOT_PROMPT, input, ctx);
    }

    /** The handler with the root prompt `root`. */
    method SubmitUnder(root: string, input: string, ctx: Context) returns (request: Option<CompletionRequest>)
      requires Valid()
      modifies this
      ensures Valid()
      ensures history == SubmitSpec(old(history), root, input, ctx)
      ensures input == "" ==> request.None?
      ensures request.Some? <==> input != "" && Retrieve(ctx, input).Some?
      ensures request.Some? ==>
        request.value == Request(ContextHeader(root) + Bullets(Retrieve(ctx, input).value), input)
    {
      request := None;
      if input == "" {
        return;
      }
      var relevant := Retrieve(ctx, input);
      if relevant.None? {
        return;
      }
      var req := Answer(root, input, relevant.value, ctx);
      request := Some(req);
    }

    /**
     * The answering part of the handler for the retrieved texts `infos`:
     * the system prompt is built, the request sent, and an answer, if the
     * call returns one, recorded after the question.
     */
    method Answer(root: string, input: string, infos: seq<string>, ctx: Context) returns (request: CompletionRequest)
      requires Valid() && input != ""
      modifies this
      ensures Valid()
      ensures request == Request(ContextHeader(root) + Bullets(infos), input)
      ensures ctx.chat(request).None? ==> history == old(history)
      ensures ctx.chat(request).Some? ==>
        history == old(history) + [Turn(User, input), Turn(Bot, ctx.chat(request).value)]
    {
      var systemPrompt := BuildSystemPrompt(root, infos);
      request := Request(systemPrompt, input);
      var completion := ctx.chat(request);
      if completion.None? {
        return;
      }
      AppendPairKeepsWellFormed(history, input, completion.value);
      history := history + [Turn(User, input)];
      history := history + [Turn(Bot, completion.value)];
    }
  }
}
