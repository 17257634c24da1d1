# Code-mentor back end: a Dafny model

This project models the server logic of a small code-explanation web
application (`app.py`). The application takes pasted code, an optional
uploaded file or zip archive, optional documentation, an optional question
and an optional older version of the code. It sends one primary prompt to a
generative-language service and cuts the reply into four tagged sections:
`big_picture`, `why_this_exists`, `hidden_traps` and `flow`. It then makes at
most two more calls, one for a mentor answer and one for a
backward-compatibility report.

The model is split into modules that follow the program's parts:

- `PyText` (`text.dfy`) holds the Python `str` operations the code relies
  on:
  - `find` and `in`, with the first-occurrence semantics and -1 for absent,
    specified independently of how they are computed;
  - slicing with clamped, possibly out-of-order bounds;
  - `startswith` and `endswith`, defined directly and tied to the same
    notion of an occurrence that `find` uses;
  - `strip()` over the exact `str.isspace` character set, specified
    independently of how it is computed.
- `Segmenter` (`segmenter.dfy`) is `extract_section`: the placeholder for a
  missing start tag, the `"END"` sentinel, and the end tag searched from the
  start of the reply.
- `Aggregator` (`aggregator.dfy`) is `process_input`:
  - the pasted code followed by one `--- FILE:` block per source member of a
    zip upload, in archive order, or one block for a plain upload;
  - an archive that cannot be opened adds nothing;
  - a member that cannot be read ends the loop, and the blocks appended before
    it are kept.
- `ModelSelection` (`selection.dfy`) is `get_best_model`, with the service's
  model listing given as data. It returns the chosen model name.
- `EnvFile` (`envfile.dfy`) is the line parsing of `load_env_file`.
- `Orchestrator` (`orchestrator.dfy`) covers `generate` and the `/analyze`
  handler:
  - the handler returns its response together with the log of requests it
    sent, in order;
  - the service is a parameter mapping a prompt to its outcome.

Imperative parts of the source stay imperative here:

- the member loop of `process_input` (`AppendArchive`);
- the filter loop and the nested priority loops of `get_best_model`;
- the line loop of `load_env_file`;
- the step-by-step building of the result in `analyze`.

Each of these methods is proved against a specification function or
predicate, and the lemmas state the source's promises about that
specification.

## Model

| member | source | states |
|---|---|---|
| PyText.Find | app.py:104-106 | The result is -1 exactly when the pattern does not occur, and otherwise it is the first index where it occurs. |
| PyText.In | app.py:103 | `pat in text` holds exactly when the pattern occurs somewhere in the text. |
| PyText.FindIsFirstOccurrence | app.py:104-106 | Any first occurrence of a pattern is the index `find` returns. |
| PyText.FindAtMost | app.py:106-107 | `find` returns an index no later than any occurrence of the pattern. |
| PyText.Slice | app.py:107 | `text[start:end]` with a stop before the start, or a start past the end, is empty; otherwise it is the text between the clamped bounds. |
| PyText.StartsWith | app.py:16 | `s.startswith(p)` holds exactly when `p` occurs at index 0 of `s`. |
| PyText.EndsWith | app.py:79 | `s.endswith(p)` holds exactly when `p` occurs at the index where it would end `s`. |
| PyText.Strip | app.py:105-107 | The result has no whitespace at either end. It is a middle piece of the input with only whitespace cut away on both sides. It is empty exactly when the input is blank. |
| PyText.StripTrims | app.py:105-107 | Trimming both ends leaves no whitespace at either end. |
| PyText.StripCutsBlankEnds | app.py:105-107 | Trimming both ends removes only a blank prefix and a blank suffix; what remains is the piece of the input between them. |
| PyText.PieceOfSuffix | app.py:105-107 | A piece left after cutting a blank prefix and then a blank suffix is the input stripped at the end of that prefix. |
| PyText.StripEmptyIffBlank | app.py:105-107 | Trimming both ends leaves nothing exactly when the input is all whitespace. |
| PyText.StripIdempotent | app.py:105-107 | Stripping an already stripped string changes nothing. |
| PyText.StripOfTrimmed | app.py:105-107 | A string with no whitespace at either end is its own strip. |
| Segmenter.ExtractSection | app.py:101-109 | A section value never starts or ends with whitespace. |
| Segmenter.MissingStartTag | app.py:103 | A reply without the start tag gives "Content not generated.". |
| Segmenter.CutToEnd | app.py:104-107 | With the sentinel end tag, or an end tag absent from the reply, the section runs from after the found start tag to the end. |
| Segmenter.CutAtEndTag | app.py:104-107 | With a found end tag other than the sentinel, the section is the clamped slice from after the start tag to the end tag's first index. |
| Segmenter.SentinelReadsToEnd | app.py:104-105 | With `"END"` as end tag, the section is all text after the first start tag, stripped. |
| Segmenter.MissingEndTagReadsToEnd | app.py:106-107 | An end tag missing from the reply makes the section run to the end of the reply. |
| Segmenter.SectionBetweenTags | app.py:104-107 | When the first end tag follows the first start tag, the section is the stripped text between them. |
| Segmenter.EarlyEndTagGivesEmptySection | app.py:106-107 | An occurrence of the end tag that begins no later than the end of the first start tag makes the section empty, because the end tag is searched from the start of the reply. |
| Segmenter.OrderedTags | app.py:101-107 | Four tags first appearing in order without overlap cut the reply into the stripped pieces between consecutive tags; the last piece runs to the end. |
| Aggregator.EndsWithAny | app.py:83 | `name.endswith(tuple)` holds exactly when the name ends with one of the suffixes. |
| Aggregator.FileBlock | app.py:85-88 | A file block opens with "\n\n--- FILE: ", has the file name right after that marker, and ends with the file's decoded content. |
| Aggregator.FileBlockLayout | app.py:85-88 | The header `--- FILE: <name> ---` closes with " ---\n" right after the name, and the content follows it directly. With `FileBlock`'s contract this fixes every character of the block. |
| Aggregator.Blocks | app.py:82-85 | The text appended for a run of members is empty or opens with a file marker. |
| Aggregator.UploadText | app.py:77-88 | What an upload adds after the pasted code is empty or opens with a file marker: archive blocks, one file block, or nothing. |
| Aggregator.BlocksExtend | app.py:82-85 | Processing one more member appends that member's block, if it is a source file, after the blocks already built. |
| Aggregator.ReadableRun | app.py:82-86 | The count of members processed is the index of the first source member that cannot be read, or all members when there is none. |
| Aggregator.AppendArchive | app.py:81-86 | The zip loop appends, in archive order, the block of every source member before the first unreadable one. |
| Aggregator.ProcessInput | app.py:75-89 | The combined text is the pasted code followed by what the upload contributes: archive blocks, one file block, or nothing. |
| Aggregator.CodeIsPrefix | app.py:76-88 | The pasted code is always a prefix of the combined text. |
| Aggregator.SingleFileUpload | app.py:87-88 | A named upload that is not a `.zip` adds exactly one `--- FILE:` block holding its decoded content. |
| Aggregator.NoNamedUpload | app.py:76-87 | No upload, or an upload with an empty name, leaves the code unchanged. |
| Aggregator.BlocksAppend | app.py:82-85 | The blocks of a run of members are the blocks of its parts in order, so archive order is kept. |
| Aggregator.SkippedMember | app.py:83 | A member without a source suffix contributes nothing wherever it stands. |
| Aggregator.DirectoryIsSkipped | app.py:83 | A member whose name ends in "/" is never treated as source. |
| Aggregator.FailureKeepsEarlierBlocks | app.py:80-86 | An unreadable source member ends the archive's contribution: the blocks of the members before it are kept and nothing after it is added. |
| Aggregator.FullyReadableArchive | app.py:82-85 | An archive whose members can all be read contributes the blocks of all its source members. |
| Aggregator.NothingBreaks | app.py:82-86 | With no unreadable source member, every member is processed. |
| ModelSelection.Compatible | app.py:37-40 | The compatible names are exactly the names of the listed models that support `generateContent`. |
| ModelSelection.CompatibleAppend | app.py:37-40 | Filtering keeps listing order: the compatible names of two listings one after the other are those of the first followed by those of the second. |
| ModelSelection.FirstCompatible | app.py:37-60 | The first compatible name is the name of the first listed model that supports `generateContent`, which is the fallback when no preferred identifier matches. |
| ModelSelection.GetBestModel | app.py:34-68 | A failed listing gives the default model. The most preferred identifier contained in any compatible name wins, with the first such name in listing order. With no match it is the first compatible name, and with no compatible model the default. |
| ModelSelection.BestMatchUnique | app.py:51-55 | The priority search has a single answer: identifier and name are both determined. |
| ModelSelection.HigherPriorityWins | app.py:45-55 | A name containing "gemini-2.5-flash" is chosen even when a name with a lower-priority identifier is listed before it. |
| ModelSelection.NoCompatibleModel | app.py:58-63 | With no listed model supporting generation, the default "gemini-1.5-flash-latest" is used. |
| ModelSelection.CompatibleEmpty | app.py:37-40 | No model supporting generation means no compatible name. |
| EnvFile.AfterFirstEquals | app.py:17 | `split('=', 1)[1]` is the text after the first "=". |
| EnvFile.SplitAfterPrefix | app.py:16-17 | For a line starting with "API_KEY=", that text is everything after the prefix. |
| EnvFile.LoadEnvFile | app.py:12-20 | A missing file gives no key. Otherwise the key is the stripped remainder of the first line starting with "API_KEY=", and there is no key only when no line has the prefix. |
| Orchestrator.Generate | app.py:91-96 | A reply's text is returned as is, a reply without text gives "", and an exception gives "AI Error: " followed by its message. |
| Orchestrator.MasterPrompt | app.py:133-165 | The definition of the primary prompt: the docs, the code, then the format that names the four tags in order. Its contents are stated by `MasterPromptCarriesCode`. |
| Orchestrator.QuestionPrompt | app.py:179 | The definition of the mentor question prompt. Its contents are stated by `QuestionPromptCarriesInputs`. |
| Orchestrator.CompatibilityPrompt | app.py:182 | The definition of the old-versus-new comparison prompt. Its contents are stated by `CompatibilityPromptCarriesInputs`. |
| Orchestrator.SectionText | app.py:170-175 | A section value has no surrounding whitespace and is the placeholder when its start tag is absent from the reply. |
| Orchestrator.CutSections | app.py:170-175 | Each of the four section keys holds the section cut from the reply by its own tag pair. |
| Orchestrator.Analyze | app.py:119-184 | Covers both outcomes of the handler. See the list after this table. |
| Orchestrator.FailedCallFillsNoSection | app.py:167-175 | When the primary call raises an exception whose message does not contain a section's start tag, that section gets the placeholder; brackets elsewhere in the message do not matter. |
| Orchestrator.MasterPromptCarriesCode | app.py:133-137 | The primary prompt contains the aggregated code. |
| Orchestrator.QuestionPromptCarriesInputs | app.py:179 | The question prompt contains both the question and the code. |
| Orchestrator.CompatibilityPromptCarriesInputs | app.py:182 | The comparison prompt contains both the old version and the code. |
| Orchestrator.WellFormedReply | app.py:170-175 | A reply whose four tags first appear in order gives each key the stripped text between its tag and the next. `flow` runs to the end. |
| Orchestrator.MissingTrapsTag | app.py:171-173 | Without "[TRAPS]", `hidden_traps` is the placeholder and `why_this_exists` runs to the end of the reply, taking in the "[MERMAID]" section. |

`Orchestrator.Analyze` states:

- The request is rejected exactly when the aggregated code is blank.
- A rejection is a 400 with "No code detected." and no service call.
- Otherwise the prompts sent are the primary prompt, then the question prompt when the question is not blank, then the comparison prompt when the old version is not blank.
- Each section is cut from the primary reply.
- `mentor_answer` is present exactly when the question is not blank, and `backward_compatibility` exactly when the old version is not blank. Each holds the reply to its own prompt.

Notes on behaviour the model keeps:

- `Orchestrator.Analyze` writes the `not x.strip()` tests as `IsBlank(x)`. `PyText.Strip` proves the two equal.
- The end tag is searched from the beginning of the reply, as app.py:106 does. So an end tag occurring before the start tag yields an empty section (`EarlyEndTagGivesEmptySection`).
- A reply missing "[TRAPS]" makes `why_this_exists` run to the end of the reply (`MissingTrapsTag`).

## Left out

- Flask is not modelled: routing, form and file access, `jsonify`, the index page and the `__main__` start-up. A request is a `Form` value, and a missing text field reads as "".
- The service is not modelled. It is a function from prompt text to outcome (a reply with text, a reply without text, or an exception). So two identical prompts get the same outcome. All prompts of one request differ, so this does not matter there.
- The model listing is data. An exception raised at any point of `list_models()` is the `ListingFailed` case.
- `GenerativeModel` construction, `genai.configure` and every `print` are left out. `GetBestModel` returns the name the model would be built with.
- The module-level start-up is left out: calling `load_env_file`, raising `ValueError` when it gives no key, and choosing the model at import time (app.py:22-26, 70).
- Reading the `.env` file is not modelled. `LoadEnvFile` takes the file as its lines, or None when the file does not exist. The lines are those Python yields in text mode with universal newlines: "\n", "\r" and "\r\n" all end a line, each is read as "\n", and every line but possibly the last keeps that "\n" until `strip()` removes it. I/O errors other than a missing file are not modelled.
- Zip parsing and the UTF-8 decoding with `errors='ignore'` are uninterpreted functions.
  - An archive either cannot be opened or is a sequence of members in `namelist()` order.
  - Each name carries the bytes `z.open(name)` gives and a flag that says whether opening or reading it raises.
  - A name listed twice in the archive gives, at both places, the last member stored under that name, as `z.open(name)` does.
  - `file.read()` on a plain upload is assumed not to raise.
  - An upload whose `filename` is None is not modelled.
- `Orchestrator.MasterPrompt`: the fixed text keeps the labels, the four tags and their order. It does not keep the Mermaid styling instructions or the exact indentation of app.py:150-164. `MasterPromptCarriesCode` is proved about this abbreviated text.
- The `except` branch of `extract_section` ("Parsing error.", app.py:108-109) is not modelled, because its input is always a string and nothing in its body can raise.
- The 500 handler of `analyze` (app.py:186-187) is not modelled, because in the model nothing inside the handler raises.
