/** The `/analyze` handler: validate the aggregated code, make one primary
    model call whose reply is cut into four sections, then the optional
    question and compatibility calls. The generation service is a parameter,
    and the handler returns the prompts it sent, in order. */
module Orchestrator {
  import opened PyText
  import opened Optional
  import opened Segmenter
  import opened Aggregator

  /** What `model.generate_content(prompt)` does: a response carrying text,
      a response without text, or an exception with its message. */
  datatype ServiceOutcome = Replied(text: string) | NoText | Raised(message: string)

  type Service = string -> ServiceOutcome

  const ErrorPrefix: string := "AI Error: "

  /** `generate(prompt)`: never raises; a failure comes back as text. */
  function Generate(outcome: ServiceOutcome): (r: string)
    ensures outcome.Raised? ==> StartsWith(r, ErrorPrefix) && r[|ErrorPrefix|..] == outcome.message
    ensures outcome.Replied? ==> r == outcome.text
    ensures outcome.NoText? ==> r == []
  {
    match outcome
    case Replied(text) => text
    case NoText => ""
    case Raised(message) => ErrorPrefix + message
  }

  /** The form fields and the upload of one request; a missing text field
      reads as "". */
  datatype Form = Form(code: string, docs: string, oldCode: string, question: string, codeFile: Option<Upload>)

  /** The four sections cut from the primary reply. */
  datatype Section = BigPicture | WhyThisExists | HiddenTraps | Flow

  /** The four section keys of the JSON object of a successful analysis,
      each field being the key of the same name in snake case. */
  datatype PrimarySections = PrimarySections(bigPicture: string, whyThisExists: string, hiddenTraps: string, flow: string)

  /** The JSON object of a successful analysis: the four sections, and the
      `mentor_answer` and `backward_compatibility` keys, None when absent. */
  datatype Sections = Sections(primary: PrimarySections, mentorAnswer: Option<string>, backwardCompatibility: Option<string>)

  /** A 400 with an `error` field, or the section object. */
  datatype Response = Rejected(status: nat, error: string) | Analysis(sections: Sections)

  const NoCodeError: string := "No code detected."

  const BigPictureTag: string := "[BIG_PICTURE]"
  const WhyExistsTag: string := "[WHY_EXISTS]"
  const TrapsTag: string := "[TRAPS]"
  const MermaidTag: string := "[MERMAID]"

  /** The tag that opens each section and the one that closes it. */
  function StartTag(s: Section): string {
    match s
    case BigPicture => BigPictureTag
    case WhyThisExists => WhyExistsTag
    case HiddenTraps => TrapsTag
    case Flow => MermaidTag
  }

  function EndTag(s: Section): string {
    match s
    case BigPicture => WhyExistsTag
    case WhyThisExists => TrapsTag
    case HiddenTraps => MermaidTag
    case Flow => EndSentinel
  }

  /** The fixed text of the primary prompt around the docs and the code; the
      format part names the four tags in order. */
  const MasterIntro: string := "\n        Analyze this code using these docs as context: "
  const MasterCodeLabel: string := "\n        \n        CODE:\n        "
  const MasterFormat: string :=
    "\n        \n        Provide the following sections EXACTLY in this format with the tags:\n        "
    + BigPictureTag + "\n        (Exactly 3 bullet points)\n\n        "
    + WhyExistsTag + "\n        (Exactly 2 sentences)\n\n        "
    + TrapsTag + "\n        (Top 3 risks with \U{26a0}\U{fe0f})\n\n        "
    + MermaidTag + "\n        graph TD\n        (Insert Colorful Mermaid Logic Here)\n        "

  /** The primary prompt: the docs, the code, and the format with the tags
      at the end. */
  function MasterPrompt(docs: string, code: string): string {
    MasterIntro + docs + MasterCodeLabel + code + MasterFormat
  }

  const QuestionIntro: string := "Question: "
  const QuestionContextLabel: string := "\nContext: "
  const QuestionOutro: string := "\nAnswer in one short mentor-like paragraph."

  /** The mentor question prompt: the question, the code as context, and
      the instruction for the answer. */
  function QuestionPrompt(question: string, code: string): string {
    QuestionIntro + question + QuestionContextLabel + code + QuestionOutro
  }

  const CompatibilityIntro: string := "Compare OLD vs NEW for breaking changes.\nOLD: "
  const CompatibilityNewLabel: string := "\nNEW: "
  const CompatibilityOutro: string := "\nOutput Safety Score 0-100 and list breaks."

  /** The old-versus-new comparison prompt: the old version, the new code,
      and the instruction for the report. */
  function CompatibilityPrompt(oldCode: string, code: string): string {
    CompatibilityIntro + oldCode + CompatibilityNewLabel + code + CompatibilityOutro
  }

  /** A request sent to the generation service, by kind. */
  datatype Prompt =
    | MasterRequest(docs: string, code: string)
    | QuestionRequest(question: string, code: string)
    | CompatibilityRequest(oldCode: string, code: string)

  /** The text sent for a request. */
  function PromptText(p: Prompt): string {
    match p
    case MasterRequest(docs, code) => MasterPrompt(docs, code)
    case QuestionRequest(question, code) => QuestionPrompt(question, code)
    case CompatibilityRequest(oldCode, code) => CompatibilityPrompt(oldCode, code)
  }

  /** The text of one section of the primary reply. */
  function SectionText(reply: string, s: Section): (r: string)
    ensures IsTrimmed(r)
    ensures !Contains(reply, StartTag(s)) ==> r == NotGenerated
  {
    ExtractSection(reply, StartTag(s), EndTag(s))
  }

  /** The prompts `analyze` sends for the given code and optional fields. */
  function ExpectedCalls(form: Form, code: string): seq<Prompt> {
    [MasterRequest(form.docs, code)]
    + (if !IsBlank(form.question) then [QuestionRequest(form.question, code)] else [])
    + (if !IsBlank(form.oldCode) then [CompatibilityRequest(form.oldCode, code)] else [])
  }

  /** The value of a section key in the object. */
  function SectionValue(r: PrimarySections, s: Section): string {
    match s
    case BigPicture => r.bigPicture
    case WhyThisExists => r.whyThisExists
    case HiddenTraps => r.hiddenTraps
    case Flow => r.flow
  }

  /** The four sections of the primary reply. */
  method CutSections(reply: string) returns (r: PrimarySections)
    ensures forall s :: SectionValue(r, s) == SectionText(reply, s)
  {
    var big := SectionText(reply, BigPicture);
    var why := SectionText(reply, WhyThisExists);
    var traps := SectionText(reply, HiddenTraps);
    var flow := SectionText(reply, Flow);
    r := PrimarySections(big, why, traps, flow);
    forall s ensures SectionValue(r, s) == SectionText(reply, s) {
      match s
      case BigPicture =>
      case WhyThisExists =>
      case HiddenTraps =>
      case Flow =>
    }
  }

  /** `analyze`. Blank code is rejected before any call. Otherwise the
      primary call comes first and its reply fills the four section keys; a
      non-blank question adds `mentor_answer` and a non-blank old version
      adds `backward_compatibility`, each with its own call, in that order.
      The tests `not x.strip()` are written `IsBlank(x)`, which `Strip`'s
      contract shows to be the same. */
  method Analyze(form: Form, openZip: ZipReader, decode: Decoder, service: Service)
    returns (response: Response, calls: seq<Prompt>)
    ensures var code := form.code + UploadText(form.codeFile, openZip, decode);
      && (response.Rejected? <==> IsBlank(code))
      && (response.Rejected? ==> response.status == 400 && response.error == NoCodeError && calls == [])
      && (response.Analysis? ==> calls == ExpectedCalls(form, code))
    ensures response.Analysis? ==>
      && (forall s :: SectionValue(response.sections.primary, s) == SectionText(Generate(service(PromptText(calls[0]))), s))
      && (response.sections.mentorAnswer.Some? <==> !IsBlank(form.question))
      && (response.sections.mentorAnswer.Some? ==>
            response.sections.mentorAnswer.value == Generate(service(PromptText(calls[1]))))
      && (response.sections.backwardCompatibility.Some? <==> !IsBlank(form.oldCode))
      && (response.sections.backwardCompatibility.Some? ==>
            response.sections.backwardCompatibility.value == Generate(service(PromptText(calls[|calls| - 1]))))
  {
    var code := ProcessInput(form.code, form.codeFile, openZip, decode);
    calls := [];
    if IsBlank(code) {
      response := Rejected(400, NoCodeError);
      return;
    }

    var master := MasterRequest(form.docs, code);
    var fullAnalysis := Generate(service(PromptText(master)));
    calls := calls + [master];
    var primary := CutSections(fullAnalysis);
    var result := Sections(primary, None, None);

    if !IsBlank(form.question) {
      var prompt := QuestionRequest(form.question, code);
      result := result.(mentorAnswer := Some(Generate(service(PromptText(prompt)))));
      calls := calls + [prompt];
    }
    assert calls == [master] + (if !IsBlank(form.question) then [QuestionRequest(form.question, code)] else []);
    if !IsBlank(form.oldCode) {
      var prompt := CompatibilityRequest(form.oldCode, code);
      result := result.(backwardCompatibility := Some(Generate(service(PromptText(prompt)))));
      calls := calls + [prompt];
    }
    assert calls[0] == master;
    response := Analysis(result);
  }

  /** A failed primary call fills no section whose tag its message lacks:
      "AI Error: " holds no "[", so the error text holds a section's start
      tag only when the exception's message does. A message with a
      bracketed details list but no section tag leaves every section the
      placeholder. */
  lemma FailedCallFillsNoSection(message: string, s: Section)
    requires !Contains(message, StartTag(s))
    ensures SectionText(Generate(Raised(message)), s) == NotGenerated
  {
    var text := ErrorPrefix + message;
    var tag := StartTag(s);
    assert tag[0] == '[' by {
      match s
      case BigPicture =>
      case WhyThisExists =>
      case HiddenTraps =>
      case Flow =>
    }
    forall j | 0 <= j <= |text| - |tag| ensures !OccursAt(text, tag, j) {
      if j < |ErrorPrefix| {
        assert text[j] == ErrorPrefix[j] != '[';
      } else {
        assert text[j..j + |tag|] == message[j - |ErrorPrefix|..j - |ErrorPrefix| + |tag|];
        assert !OccursAt(message, tag, j - |ErrorPrefix|);
      }
    }
  }

  /** The primary prompt carries the code under analysis. */
  lemma MasterPromptCarriesCode(docs: string, code: string)
    ensures Contains(MasterPrompt(docs, code), code)
  {
    ContainsMiddle(MasterIntro + docs + MasterCodeLabel, code, MasterFormat);
  }

  /** The question prompt carries the question and the code. */
  lemma QuestionPromptCarriesInputs(question: string, code: string)
    ensures Contains(QuestionPrompt(question, code), question)
    ensures Contains(QuestionPrompt(question, code), code)
  {
    ContainsMiddle(QuestionIntro + question + QuestionContextLabel, code, QuestionOutro);
    var tail := QuestionContextLabel + code + QuestionOutro;
    ContainsMiddle(QuestionIntro, question, tail);
    AppendAssoc(QuestionIntro + question, QuestionContextLabel, code);
    AppendAssoc(QuestionIntro + question, QuestionContextLabel + code, QuestionOutro);
  }

  /** The comparison prompt carries the old version and the code. */
  lemma CompatibilityPromptCarriesInputs(oldCode: string, code: string)
    ensures Contains(CompatibilityPrompt(oldCode, code), oldCode)
    ensures Contains(CompatibilityPrompt(oldCode, code), code)
  {
    ContainsMiddle(CompatibilityIntro + oldCode + CompatibilityNewLabel, code, CompatibilityOutro);
    var tail := CompatibilityNewLabel + code + CompatibilityOutro;
    ContainsMiddle(CompatibilityIntro, oldCode, tail);
    AppendAssoc(CompatibilityIntro + oldCode, CompatibilityNewLabel, code);
    AppendAssoc(CompatibilityIntro + oldCode, CompatibilityNewLabel + code, CompatibilityOutro);
  }

  /** A reply that follows the prompt's format, with the four tags first
      appearing in order and without overlap, is cut into the text between
      consecutive tags, the last section running to the end. */
  lemma WellFormedReply(reply: string, i1: int, i2: int, i3: int, i4: int)
    requires IsFirstOccurrence(reply, BigPictureTag, i1)
    requires IsFirstOccurrence(reply, WhyExistsTag, i2)
    requires IsFirstOccurrence(reply, TrapsTag, i3)
    requires IsFirstOccurrence(reply, MermaidTag, i4)
    requires i1 + |BigPictureTag| <= i2 && i2 + |WhyExistsTag| <= i3 && i3 + |TrapsTag| <= i4
    ensures SectionText(reply, BigPicture) == Strip(reply[i1 + |BigPictureTag|..i2])
    ensures SectionText(reply, WhyThisExists) == Strip(reply[i2 + |WhyExistsTag|..i3])
    ensures SectionText(reply, HiddenTraps) == Strip(reply[i3 + |TrapsTag|..i4])
    ensures SectionText(reply, Flow) == Strip(reply[i4 + |MermaidTag|..])
  {
    OrderedTags(reply, BigPictureTag, WhyExistsTag, TrapsTag, MermaidTag, i1, i2, i3, i4);
  }

  /** A reply without "[TRAPS]" gets the placeholder for `hidden_traps`, and
      `why_this_exists`, having lost its end tag, runs to the end of the
      reply and so takes in the "[MERMAID]" section as well. */
  lemma MissingTrapsTag(reply: string, i2: int)
    requires !Contains(reply, TrapsTag)
    requires IsFirstOccurrence(reply, WhyExistsTag, i2)
    ensures SectionText(reply, HiddenTraps) == NotGenerated
    ensures SectionText(reply, WhyThisExists) == Strip(reply[i2 + |WhyExistsTag|..])
  {
    MissingEndTagReadsToEnd(reply, WhyExistsTag, TrapsTag, i2);
  }
}
