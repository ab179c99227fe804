/**
 * The client of the Ollama text generator: the retrieval-augmented prompt, the
 * parser of the streamed reply, and `generate_answer` as their composition.
 * The HTTP call is a parameter: it either fails with an error text or yields
 * the reply's lines (already decoded as UTF-8).
 */
module OllamaClient {
  import opened Wrappers
  import opened Text
  import opened KnowledgeBase

  /** What posting a prompt gives back: a request exception, or the streamed lines. */
  datatype HttpOutcome = Unreachable(error: string) | Streamed(lines: seq<string>)

  /** The outside services the answer pipeline calls: the embedder, the index search and the generator's HTTP endpoint. */
  datatype Services = Services(embed: string -> Vector, search: Search, post: string -> HttpOutcome)

  /** The context text used when retrieval finds nothing. */
  const NoContext: string := "No salon data found."

  const PromptHead: string := "You " + "are a helpful AI receptionist for a salon. \nIf customer asks some absurd question not related to Salon, answer appropriately; no need to escalate.\nAlways answer truthfully using the context below. \nIf you don't find the answer in the context, politely say you\U{2019}ll confirm with your supervisor later.\n\nSalon Knowledge:\n"

  const PromptMiddle: string := "\n\nUser Question:\n"

  const PromptTail: string := "\n\nAnswer:"

  /** The key that introduces a piece of generated text in a streamed line. */
  const Marker: string := "\"response\":\""

  /** What the client answers when the generator cannot be reached, before the error text. */
  const UnreachablePrefix: string := "\U{26A0}\U{FE0F} Could not reach Ollama API: "

  // ---------------------------------------------------------------- build_prompt

  /** The retrieved documents one per line, or the placeholder when there are none. */
  function ContextText(docs: seq<string>): string {
    if docs == [] then NoContext else Join(docs, "\n")
  }

  lemma IndexOfAt(s: string, p: string, i: nat)
    requires OccursAt(s, p, i)
    requires forall j :: 0 <= j < i ==> !OccursAt(s, p, j)
    ensures IndexOf(s, p) == Some(i)
    decreases i
  {
    if i > 0 {
      assert !OccursAt(s, p, 0);
      OccursShift(s, p);
      assert forall j :: 0 <= j < i - 1 ==> !OccursAt(s[1..], p, j) by {
        forall j | 0 <= j < i - 1 ensures !OccursAt(s[1..], p, j) {
          assert !OccursAt(s, p, j + 1);
        }
      }
      IndexOfAt(s[1..], p, i - 1);
    }
  }

  /** Splitting a `c`-joined list at `c` gives the list back when no element contains `c`. */
  lemma {:induction false} SplitOnJoinChar(parts: seq<string>, c: char)
    requires |parts| >= 1
    requires forall k :: 0 <= k < |parts| ==> c !in parts[k]
    ensures SplitOn(Join(parts, [c]), [c]) == parts
    decreases |parts|
  {
    var p := parts[0];
    forall j | 0 <= j < |p| ensures !OccursAt(p, [c], j) {
      assert p[j] in parts[0];
    }
    if |parts| == 1 {
      assert forall j :: 0 <= j ==> !OccursAt(p, [c], j);
    } else {
      var rest := Join(parts[1..], [c]);
      var s := p + [c] + rest;
      assert Join(parts, [c]) == s;
      assert s[|p|..|p| + 1] == [c];
      forall j | 0 <= j < |p| ensures !OccursAt(s, [c], j) {
        assert s[j] == p[j] && p[j] in parts[0];
      }
      IndexOfAt(s, [c], |p|);
      assert s[..|p|] == p && s[|p| + 1..] == rest;
      SplitOnJoinChar(parts[1..], c);
      assert parts == [p] + parts[1..];
    }
  }

  /** The retrieved documents can be read back from the context text when none of them spans a line break. */
  lemma ContextTextLines(docs: seq<string>)
    requires docs != []
    requires forall k :: 0 <= k < |docs| ==> '\n' !in docs[k]
    ensures SplitOn(ContextText(docs), "\n") == docs
  {
    SplitOnJoinChar(docs, '\n');
  }

  /** The filled-in template starts with `Y` and ends with `:`, whatever is filled in. */
  lemma TemplateEnds(context: string, query: string)
    ensures var core := PromptHead + context + PromptMiddle + query + PromptTail;
      core != [] && core[0] == 'Y' && core[|core| - 1] == ':'
  {
    var core := PromptHead + context + PromptMiddle + query + PromptTail;
    assert PromptHead[0] == "You "[0] == 'Y';
    assert core[0] == PromptHead[0];
    assert core[|core| - 1] == PromptTail[|PromptTail| - 1] == ':';
  }

  lemma StripNewlines(core: string)
    requires core != [] && core[0] == 'Y' && core[|core| - 1] == ':'
    ensures Strip("\n" + core + "\n") == core
  {
    StripPadded("\n", core, "\n");
  }

  /** The f-string of `build_prompt` before stripping: it opens and closes with a line break. */
  function PromptTemplate(query: string, contextDocs: seq<string>): string {
    "\n" + (PromptHead + ContextText(contextDocs) + PromptMiddle + query + PromptTail) + "\n"
  }

  /**
   * `build_prompt`, given what retrieval returned for the query: the template
   * with the context and the question filled in, without surrounding whitespace.
   */
  function BuildPrompt(query: string, contextDocs: seq<string>): string {
    PromptHead + ContextText(contextDocs) + PromptMiddle + query + PromptTail
  }

  /** The prompt has no whitespace at either end. */
  lemma BuildPromptTrimmed(query: string, contextDocs: seq<string>)
    ensures var prompt := BuildPrompt(query, contextDocs);
      prompt != [] && !IsSpace(prompt[0]) && !IsSpace(prompt[|prompt| - 1])
  {
    TemplateEnds(ContextText(contextDocs), query);
  }

  /** The prompt is the stripped template: stripping removes only the template's opening and closing line break. */
  lemma BuildPromptStripsTemplate(query: string, contextDocs: seq<string>)
    ensures BuildPrompt(query, contextDocs) == Strip(PromptTemplate(query, contextDocs))
  {
    TemplateEnds(ContextText(contextDocs), query);
    StripNewlines(BuildPrompt(query, contextDocs));
  }

  lemma FilledIn(h: string, c: string, m: string, q: string, t: string)
    ensures OccursAt(h + c + m + q + t, c, |h|)
    ensures OccursAt(h + c + m + q + t, q, |h| + |c| + |m|)
  {
    var s := h + c + m + q + t;
    assert s[|h|..|h| + |c|] == c;
    assert s[|h| + |c| + |m|..|h| + |c| + |m| + |q|] == q;
  }

  /** The prompt holds the context text and the question, each where the template puts it. */
  lemma BuildPromptMentions(query: string, contextDocs: seq<string>)
    ensures OccursAt(BuildPrompt(query, contextDocs), ContextText(contextDocs), |PromptHead|)
    ensures OccursAt(BuildPrompt(query, contextDocs), query,
                     |PromptHead| + |ContextText(contextDocs)| + |PromptMiddle|)
  {
    FilledIn(PromptHead, ContextText(contextDocs), PromptMiddle, query, PromptTail);
  }

  // ---------------------------------------------------------------- the streamed reply

  /** `data.split('"response":"')[1].split('"')[0]` for a line that holds the marker. */
  function Chunk(data: string): string
    requires Contains(data, Marker)
  {
    SplitOn(SplitOn(data, Marker)[1], "\"")[0]
  }

  /** What one streamed line adds to the answer: its chunk, or nothing for an empty line or one without the marker. */
  function LineChunk(line: string): string {
    if line != [] && Contains(line, Marker) then Chunk(line) else ""
  }

  /** The chunk is the text after the first marker, up to the next `"` or the end of the line. */
  lemma ChunkAfterMarker(data: string)
    requires Contains(data, Marker)
    ensures IndexOf(data, Marker).Some?
    ensures Chunk(data) == TakeUntil(data[IndexOf(data, Marker).value + |Marker|..], '"')
  {
    var i := IndexOf(data, Marker).value;
    var rest := data[i + |Marker|..];
    var parts := SplitOn(data, Marker);
    assert parts == [data[..i]] + SplitOn(rest, Marker);
    var piece := parts[1];
    assert piece == SplitOn(rest, Marker)[0];
    SplitOnCharHead(piece, '"');
    match IndexOf(rest, Marker)
    case None =>
    case Some(j) =>
      assert rest[j..j + |Marker|] == Marker;
      assert rest[j] == Marker[0] == '"';
      TakeUntilCut(rest, '"', j);
  }

  /** No chunk contains a double quote. */
  lemma LineChunkNoQuote(line: string)
    ensures '"' !in LineChunk(line)
  {
    if line != [] && Contains(line, Marker) {
      ChunkAfterMarker(line);
    }
  }

  /** A line whose first marker follows `pre` contributes the text up to the next quote. */
  lemma ResponseLine(pre: string, text: string, rest: string)
    requires forall j :: 0 <= j < |pre| ==> !OccursAt(pre + Marker, Marker, j)
    requires '"' !in text
    ensures LineChunk(pre + Marker + text + "\"" + rest) == text
  {
    var line := pre + Marker + text + "\"" + rest;
    assert line[..|pre| + |Marker|] == pre + Marker;
    forall j | 0 <= j < |pre| ensures !OccursAt(line, Marker, j) {
      assert !OccursAt(pre + Marker, Marker, j);
      assert line[j..j + |Marker|] == (pre + Marker)[j..j + |Marker|];
    }
    assert line[|pre|..|pre| + |Marker|] == Marker;
    IndexOfAt(line, Marker, |pre|);
    ChunkAfterMarker(line);
    var after := line[|pre| + |Marker|..];
    assert after == text + "\"" + rest;
    assert after[..|text|] == text && after[|text|] == '"';
    TakeUntilAt(after, '"', |text|);
  }

  /** The chunks of `lines`, concatenated in line order. */
  function Chunks(lines: seq<string>): string {
    Gather(lines, LineChunk)
  }

  lemma ChunksAppend(a: seq<string>, b: seq<string>)
    ensures Chunks(a + b) == Chunks(a) + Chunks(b)
  {
    GatherAppend(a, b, LineChunk);
  }

  /** Empty lines and lines without the marker add nothing to the answer. */
  lemma IgnoredLine(a: seq<string>, line: string, b: seq<string>)
    requires line == [] || !Contains(line, Marker)
    ensures Chunks(a + [line] + b) == Chunks(a + b)
  {
    assert [] + [line] == [line];
    GatherSnoc([], line, LineChunk);
    assert Chunks([line]) == "";
    ChunksAppend(a, [line]);
    ChunksAppend(a + [line], b);
    ChunksAppend(a, b);
  }

  lemma {:induction false} ChunksNoQuote(lines: seq<string>)
    ensures '"' !in Chunks(lines)
    decreases |lines|
  {
    if lines != [] {
      ChunksNoQuote(lines[..|lines| - 1]);
      LineChunkNoQuote(lines[|lines| - 1]);
    }
  }

  /** What `ask_ollama` returns for a given outcome of the HTTP call. */
  function AskResult(response: HttpOutcome): string {
    match response
    case Unreachable(e) => UnreachablePrefix + e
    case Streamed(lines) => Strip(Chunks(lines))
  }

  /** A reachable generator's answer has no surrounding whitespace and no double quote. */
  lemma StreamedAnswerShape(lines: seq<string>)
    ensures var answer := AskResult(Streamed(lines));
      '"' !in answer && (answer == [] || (!IsSpace(answer[0]) && !IsSpace(answer[|answer| - 1])))
  {
    ChunksNoQuote(lines);
    StripKeeps(Chunks(lines), '"');
  }

  /** `ask_ollama`: post the prompt; on failure return the error string, else gather the chunks line by line and strip. */
  method AskOllama(prompt: string, post: string -> HttpOutcome) returns (answer: string)
    ensures post(prompt).Unreachable? ==> answer == UnreachablePrefix + post(prompt).error
    ensures post(prompt).Streamed? ==> answer == Strip(Chunks(post(prompt).lines))
  {
    var response := post(prompt);
    if response.Unreachable? {
      return UnreachablePrefix + response.error;
    }
    var lines := response.lines;
    var acc := "";
    for n := 0 to |lines|
      invariant acc == Chunks(lines[..n])
    {
      var line := lines[n];
      if line != [] && Contains(line, Marker) {
        acc := acc + Chunk(line);
      }
      assert lines[..n + 1][..n] == lines[..n];
    }
    assert lines[..|lines|] == lines;
    answer := Strip(acc);
  }

  // ---------------------------------------------------------------- generate_answer

  /** What `generate_answer(query)` returns against the current store and services. */
  function GeneratedAnswer(kb: Store, query: string, svc: Services): string
    reads kb
  {
    AskResult(svc.post(BuildPrompt(query, kb.Retrieve(query, DefaultTopK, svc.embed, svc.search))))
  }

  /** `generate_answer`: retrieve context for the query, build the prompt, ask the generator. */
  method GenerateAnswer(kb: Store, query: string, svc: Services) returns (answer: string)
    ensures answer == AskResult(svc.post(BuildPrompt(query, kb.Retrieve(query, DefaultTopK, svc.embed, svc.search))))
  {
    var docs := kb.QueryContext(query, DefaultTopK, svc.embed, svc.search);
    var prompt := BuildPrompt(query, docs);
    answer := AskOllama(prompt, svc.post);
  }
}
