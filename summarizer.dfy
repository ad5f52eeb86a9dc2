/**
 * The summarisation loop of `process_and_summarize_sections_with_gpt`. The chat
 * completion service is an oracle: asked the `n`-th time with a prompt, it
 * answers with a completion or rejects the request (`InvalidRequestError`).
 */
module Summarizer {
  import opened Wrappers
  import opened Strings
  import opened Chunking

  /** What one chat completion request returns. */
  datatype Reply = Completion(content: string) | InvalidRequest(message: string)

  /** The service: the reply to request number `n` (counted from 0) with a given prompt. */
  type Service = (nat, string) -> Reply

  /** The fixed instruction of the local-file script; the chunk text follows it. */
  const LocalFilesTemplate: string :=
    "You are a podcast host summarizing a scientific paper. Focus on key sections such as Introduction, Related Work, "
    + "System Design, User Study, Results, Discussion, and Conclusion. Also emphasize the research questions. "
    + "Read the title at the start,and dont splt to serveral episodes. Keep it in one."
    + "Present the content in a conversational style, engaging the audience and making the research accessible. "
    + "Here is the academic text to summarize:\n\n"

  /** The fixed instruction of the URL script, which lacks the sentence about the title. */
  const PaperUrlTemplate: string :=
    "You are a podcast host summarizing a scientific paper. Focus on key sections such as Introduction, Related Work, "
    + "System Design, User Study, Results, Discussion, and Conclusion. Also emphasize the research questions. "
    + "Present the content in a conversational style, engaging the audience and making the research accessible. "
    + "Here is the academic text to summarize:\n\n"

  /** Python's truth value of the optional custom prompt: present and non-empty. */
  predicate UsesCustom(customPrompt: Option<string>) {
    customPrompt.Some? && customPrompt.value != []
  }

  function Prompt(template: string, customPrompt: Option<string>, chunk: string): string {
    if UsesCustom(customPrompt) then customPrompt.value else template + chunk
  }

  /** The prompt built for each chunk, in chunk order. */
  function Prompts(template: string, customPrompt: Option<string>, chunks: seq<string>): (ps: seq<string>)
    ensures |ps| == |chunks|
  {
    seq(|chunks|, i requires 0 <= i < |chunks| => Prompt(template, customPrompt, chunks[i]))
  }

  /** Each prompt is the custom prompt alone, ignoring the chunk, or the template
      followed by the chunk, which can be read back from it. */
  lemma PromptsShape(template: string, customPrompt: Option<string>, chunks: seq<string>)
    ensures var ps := Prompts(template, customPrompt, chunks);
      && (UsesCustom(customPrompt) ==> forall i :: 0 <= i < |ps| ==> ps[i] == customPrompt.value)
      && (!UsesCustom(customPrompt) ==> forall i :: 0 <= i < |ps| ==>
            IsPrefix(template, ps[i]) && ps[i][|template|..] == chunks[i])
  {
  }

  /** How many requests, from `i` on, succeed before the first rejected one. */
  function AnsweredFrom(prompts: seq<string>, service: Service, i: nat): (k: nat)
    requires i <= |prompts|
    ensures i <= k <= |prompts|
    ensures forall j :: i <= j < k ==> service(j, prompts[j]).Completion?
    ensures k < |prompts| ==> service(k, prompts[k]).InvalidRequest?
    decreases |prompts| - i
  {
    if i == |prompts| || service(i, prompts[i]).InvalidRequest? then i
    else AnsweredFrom(prompts, service, i + 1)
  }

  /** The number of chunks summarised before the first rejection (all of them if none). */
  function Answered(prompts: seq<string>, service: Service): nat
    ensures Answered(prompts, service) <= |prompts|
  {
    AnsweredFrom(prompts, service, 0)
  }

  /** `Answered` is the first rejected request, or the number of prompts when none is rejected. */
  lemma AnsweredIsFirstRejection(prompts: seq<string>, service: Service, i: nat)
    requires i <= |prompts|
    requires forall j :: 0 <= j < i ==> service(j, prompts[j]).Completion?
    requires i < |prompts| ==> service(i, prompts[i]).InvalidRequest?
    ensures Answered(prompts, service) == i
  {
  }

  /** The script line one reply contributes; only completions are ever appended. */
  function Line(reply: Reply): string {
    match reply
    case Completion(content) => Strip(content) + "\n"
    case InvalidRequest(_) => []
  }

  /** The replies to the first `k` requests, each trimmed and followed by a line break. */
  function Transcript(prompts: seq<string>, service: Service, k: nat): string
    requires k <= |prompts|
  {
    if k == 0 then [] else Transcript(prompts, service, k - 1) + Line(service(k - 1, prompts[k - 1]))
  }

  /** One more answered request appends its trimmed completion and a line break. */
  lemma TranscriptStep(prompts: seq<string>, service: Service, i: nat)
    requires i < |prompts|
    requires service(i, prompts[i]).Completion?
    ensures Transcript(prompts, service, i + 1)
      == Transcript(prompts, service, i) + (Strip(service(i, prompts[i]).content) + "\n")
  {
  }

  /** A script only grows: the script after `j` replies begins the script after `k >= j`. */
  lemma {:induction false} TranscriptGrows(prompts: seq<string>, service: Service, j: nat, k: nat)
    requires j <= k <= |prompts|
    ensures IsPrefix(Transcript(prompts, service, j), Transcript(prompts, service, k))
    decreases k
  {
    if j < k {
      TranscriptGrows(prompts, service, j, k - 1);
      PrefixOfAppend(Transcript(prompts, service, j), Transcript(prompts, service, k - 1),
        Line(service(k - 1, prompts[k - 1])));
    }
  }

  /** The outcome of a summarisation: the script and how many requests were sent
      (request `j` carries prompt `j`). */
  datatype Session = Session(script: string, requests: nat)

  /** What the loop produces for a list of prompts: requests go out in order and stop
      after the first rejected one; the script holds the replies before it. */
  function SessionOf(prompts: seq<string>, service: Service): Session {
    var k := Answered(prompts, service);
    Session(Transcript(prompts, service, k), if k < |prompts| then k + 1 else k)
  }

  /** Request `k` is the first rejected one (or `k` is the number of prompts): every
      request before it was answered, it is the last one sent, and the script holds
      exactly the answers before it. */
  lemma SessionOfSpec(prompts: seq<string>, service: Service)
    ensures var k := Answered(prompts, service);
      && (forall j :: 0 <= j < k ==> service(j, prompts[j]).Completion?)
      && (k < |prompts| ==> service(k, prompts[k]).InvalidRequest? && SessionOf(prompts, service).requests == k + 1)
      && (k == |prompts| ==> SessionOf(prompts, service).requests == |prompts|)
      && SessionOf(prompts, service).script == Transcript(prompts, service, k)
  {
  }

  /** The session for a paper's text. */
  function Summary(template: string, customPrompt: Option<string>, paperText: string, service: Service): Session {
    SessionOf(Prompts(template, customPrompt, ChunkTexts(paperText)), service)
  }

  lemma {:induction false} AnsweredFromAgree(prompts: seq<string>, s1: Service, s2: Service, i: nat)
    requires i <= |prompts|
    requires forall j :: i <= j < |prompts| && j <= AnsweredFrom(prompts, s1, i) ==> s1(j, prompts[j]) == s2(j, prompts[j])
    ensures AnsweredFrom(prompts, s1, i) == AnsweredFrom(prompts, s2, i)
    decreases |prompts| - i
  {
    if i < |prompts| && s1(i, prompts[i]).Completion? {
      AnsweredFromAgree(prompts, s1, s2, i + 1);
    }
  }

  lemma {:induction false} TranscriptAgree(prompts: seq<string>, s1: Service, s2: Service, k: nat)
    requires k <= |prompts|
    requires forall j :: 0 <= j < k ==> s1(j, prompts[j]) == s2(j, prompts[j])
    ensures Transcript(prompts, s1, k) == Transcript(prompts, s2, k)
    decreases k
  {
    if k > 0 {
      TranscriptAgree(prompts, s1, s2, k - 1);
    }
  }

  /** Nothing after the first rejection matters: two services that give the same
      replies to the requests actually sent lead to the same script and requests. */
  lemma OnlySentRequestsMatter(template: string, customPrompt: Option<string>, paperText: string, s1: Service, s2: Service)
    requires var prompts := Prompts(template, customPrompt, ChunkTexts(paperText));
      forall j :: 0 <= j < Summary(template, customPrompt, paperText, s1).requests ==> s1(j, prompts[j]) == s2(j, prompts[j])
    ensures Summary(template, customPrompt, paperText, s1) == Summary(template, customPrompt, paperText, s2)
  {
    var prompts := Prompts(template, customPrompt, ChunkTexts(paperText));
    AnsweredFromAgree(prompts, s1, s2, 0);
    TranscriptAgree(prompts, s1, s2, Answered(prompts, s1));
  }

  /** The request loop over the chunks, for the script whose fixed instruction is
      `template`. `sent` counts the requests made; request `j` carries `prompts[j]`. */
  method SummarizeChunks(chunks: seq<string>, customPrompt: Option<string>, template: string, service: Service)
    returns (script: string, sent: nat)
    ensures Session(script, sent) == SessionOf(Prompts(template, customPrompt, chunks), service)
  {
    ghost var prompts := Prompts(template, customPrompt, chunks);
    script := "";
    sent := 0;
    var i := 0;
    while i < |chunks|
      invariant 0 <= i <= |chunks|
      invariant sent == i
      invariant forall j :: 0 <= j < i ==> service(j, prompts[j]).Completion?
      invariant script == Transcript(prompts, service, i)
    {
      var prompt := Prompt(template, customPrompt, chunks[i]);
      assert prompt == prompts[i];
      sent := sent + 1;
      var reply := service(i, prompt);
      if reply.InvalidRequest? {
        break;
      }
      TranscriptStep(prompts, service, i);
      script := script + (Strip(reply.content) + "\n");
      i := i + 1;
    }
    AnsweredIsFirstRejection(prompts, service, i);
  }

  /** `process_and_summarize_sections_with_gpt`: chunk the text, then summarise the
      chunks in order; the outcome is the one `Summary` describes. */
  method Summarize(paperText: string, customPrompt: Option<string>, template: string, service: Service)
    returns (script: string, sent: nat)
    ensures Session(script, sent) == Summary(template, customPrompt, paperText, service)
  {
    var chunks := ChunkTexts(paperText);
    script, sent := SummarizeChunks(chunks, customPrompt, template, service);
  }
}
