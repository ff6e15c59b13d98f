# Semantic mapping and menu logic of the internship assistant, in Dafny

This project models two parts of the AI-powered internship assistant.

The first is the semantic mapping step, `generate_mappings` in
`util/mapper.py`. It flattens the applicant's structured personal data into
an ordered corpus of labelled experience snippets. It flattens the job's
requirements into an ordered requirement corpus. It stops early when either
corpus is empty. For every requirement it picks the `min(5, n)`
best-scoring snippets and asks a chat model for one reasoning string per
match. It collects the matches into a dict keyed by requirement text and
writes it, keys in insertion order. The model also covers the error-return
contract of `get_reasoning_for_match`: a missing prompt file, an exception
from the chat service and an answer without content each come back as a
string that starts with `Error` instead of an exception.

The second is the decision logic of the menu controller in `main.py`:
- which files `get_files_in_dir` lists;
- the pipeline stage `get_data_status` reports;
- which file `select_file_from_dir` returns for the answers typed;
- which manual-edit options `display_menu` offers.

Modules, one per file:

- `Basics` (`basics.dfy`): `Option`, list flattening (`Concat`), and two
  views of a dict built by assigning key after key. `Collect` gives the
  plain map, in which a later assignment to a key replaces an earlier one.
  `OrderedCollect` gives the dict's items in insertion order, the order
  `json.dump` writes them: `Assign` overwrites an existing key in place and
  appends a new one.
- `Strings` (`strings.dfy`): stripping the characters of a given class
  from both ends, Python's `str.strip()`, `startswith`, `endswith`, and
  `lower()` on ASCII letters.
- `Corpus` (`corpus.dfy`): the parsed JSON documents as datatypes, the
  experience corpus with its labels, `experience_map`, and the requirement
  corpus.
- `TopK` (`topk.dfy`): `torch.topk`, specified by the predicate `IsTopK`
  and implemented by a selection method.
- `Reasoning` (`reasoning.dfy`): `get_reasoning_for_match`.
- `Mapper` (`mapper.dfy`): the `generate_mappings` run.
- `Menu` (`menu.dfy`): the helpers of `main.py` and the edit options of
  `display_menu`.

The model abstracts these collaborators as parameters:
- **Scores.** The embedding model and `util.cos_sim` are a similarity
  oracle `(requirement, snippet) -> real`.
- **Chat service.** The OpenAI client is an oracle from a `ChatRequest` to
  a `ChatReply`. A reply either has a content, which may be null, or it
  raises with a message.
- **Prompt file.** The reasoning prompt file is `Option<string>`, `None`
  when it does not exist.
- **Input documents.** The two JSON files are optional parsed documents,
  `None` when the file does not exist. A key absent from the JSON is an
  empty list, or `None` for a scalar field.
- **File system.** It is a `FileSystem` value: which paths exist, and what
  `os.listdir` returns for a directory (`None` when it does not exist).
- **Typed answers.** What the user types is a sequence of answers, read in
  order.

`GenerateMappings` also returns two traces:
- the selection made for every requirement;
- every call of `get_reasoning_for_match`, in the order it is made.

This lets the contract state that `get_reasoning_for_match` is called
exactly once per match. A call is logged even when it sends nothing to the
chat service, as when the prompt file is missing.

Behaviour of the code that the model reproduces:
- `experience_map` is keyed by snippet text. Two snippets with the same
  text collapse into one entry, and the later one wins
  (`DuplicateTextTakesLaterLabel`).
- A requirement text that occurs twice keeps the place of its first
  occurrence in the written dict and the matches of its last occurrence
  (`ReassignedKeyKeepsPlace`).
- Equal scores are not ordered by corpus position. `torch.topk` promises
  no tie-break, so `IsTopK` states only the ranking.
- A missing reasoning prompt file does not abort the run. Each match gets
  the reasoning `"Error: Reasoning prompt file not found."`, and the
  mappings are still written.
- `int()` skips only the ASCII whitespace `\t\n\v\f\r` and space, and
  the non-ASCII whitespace of `str.isspace`. It rejects a number of more
  than 4300 digits, CPython's default limit.

## Model

| member | source | states |
|---|---|---|
| Corpus.ExperienceItemOrigin | util/mapper.py:65-82 | A snippet is in the experience corpus iff it comes from one of three places. It is a responsibility of some work entry, labelled `"Work Experience: " + title`. Or it is a project's description (`""` when absent), labelled `"Project: " + name`. Or it is one skill of some category, labelled `"Skill: " + category`. An absent title or name renders as `None`. |
| Corpus.ExperienceItemsLength | util/mapper.py:65-82 | There is exactly one snippet per responsibility, one per project and one per individual skill. The corpus and the labelled items have the same length. |
| Corpus.WorkItemAt | util/mapper.py:65-69 | Responsibility `k` of work entry `j` comes right after all responsibilities of the earlier entries. It carries its entry's title. |
| Corpus.ProjectItemAt | util/mapper.py:71-75 | Project `i` comes after every responsibility and the earlier projects. Its text is its description, or `""` when it has none. |
| Corpus.SkillItemAt | util/mapper.py:77-82 | Skill `s` of category `c` comes after every responsibility, every project and the skills of the earlier categories. It is labelled with its category. |
| Corpus.ExperienceCorpusEmpty | util/mapper.py:84-86 | The experience corpus is empty iff no work entry has a responsibility, there is no project, and no category has a skill. |
| Corpus.ExperienceMapKeys | util/mapper.py:63-82 | The keys of `experience_map` are exactly the corpus texts. Every entry's `text` equals its key. |
| Corpus.CorpusTextInMap | util/mapper.py:118-121 | Every corpus text can be looked up in `experience_map`, and the entry found carries that text. |
| Corpus.ExperienceMapLastWins | util/mapper.py:69-82 | The entry kept under a text is the last snippet in corpus order with that text, whatever its label. |
| Corpus.DuplicateTextTakesLaterLabel | util/mapper.py:65-82 | Take a responsibility "Python" under a work entry "Intern" that is also a skill under "Languages". The corpus holds it twice, but `experience_map` attributes it to `Skill: Languages`. |
| Corpus.RequirementCorpusLayout | util/mapper.py:91-96 | The requirement corpus lists the work-experience requirements first, then the education requirements, in input order. Its length is their sum plus the number of skill requirements. |
| Corpus.RequirementSkillAt | util/mapper.py:97-99 | Skill requirement `s` of category `c` comes after the work and education requirements and the skills of the earlier categories. |
| Corpus.RequirementCorpusEmpty | util/mapper.py:101-103 | The requirement corpus is empty iff there are no work-experience requirements, no education requirements and no skill requirement in any category. |
| TopK.MatchCount | util/mapper.py:113 | `k` is at most 5 and at most the corpus size, and it equals one of them. |
| TopK.SelectTopK | util/mapper.py:114 | The selection has exactly `k` positions. They are distinct and in range, ordered by non-increasing score, and no position left out scores higher than a selected one. |
| Reasoning.GetReasoningForMatch | util/mapper.py:11-35 | A missing prompt file, a raising service and a null content each give a string starting with `Error`. A missing prompt file gives `"Error: Reasoning prompt file not found."`. A raising service gives `"Error generating reasoning: "` plus the message. A null content also counts as a failure. Otherwise the result is the content with surrounding whitespace stripped, so it neither begins nor ends with whitespace. |
| Reasoning.ErrorTextIsAmbiguous | util/mapper.py:32-35 | An answer that itself reads `"Error generating reasoning: timeout"` gives the same string as a service raising `timeout`. The caller cannot tell a failure from an answer. |
| Mapper.MatchedExperience | util/mapper.py:118-121 | The experience looked up for a selected position is an entry of `experience_map` whose text is that position's corpus text. |
| Mapper.MatchesRanked | util/mapper.py:113-127 | A requirement's match list has `k` entries, by non-increasing similarity, none below a snippet left out. Each entry is the `experience_map` entry of its snippet's text, carries that snippet's score, and carries the reasoning for exactly this requirement and experience. |
| Mapper.MatchRequirement | util/mapper.py:112-127 | For one requirement: a top-`min(5, n)` selection of its score row, then one match and one call of `get_reasoning_for_match` per selected snippet, in selection order. |
| Mapper.MapRequirements | util/mapper.py:111-130 | The dict's items are those of assigning each requirement's matches in corpus order. The call log is every requirement's calls, one requirement after the other. Every selection is a top-k selection. |
| Mapper.MapStep | util/mapper.py:111-130 | Handling one more requirement assigns its matches to its key, in place when the key is already present and last otherwise, and appends its calls after those already made. |
| Mapper.MappingsShape | util/mapper.py:111-130 | The dict has exactly one key per distinct requirement text, in the order the texts first occur. A key holds the matches of its last occurrence, and every key holds `k` matches. |
| Mapper.CallsCount | util/mapper.py:116-121 | With `k` matches per requirement, `get_reasoning_for_match` is called exactly `k` times per requirement. |
| Mapper.CallsInOrder | util/mapper.py:112-121 | Call `t * k + a` is for requirement `t` and the experience of its `a`-th selected snippet. |
| Mapper.GenerateMappings | util/mapper.py:37-135 | A missing personal or job file ends the run with that file named. An empty experience corpus, and then an empty requirement corpus, end it with nothing written and no call made. Mappings are saved iff both documents exist and both corpora are nonempty. In that case `k >= 1` and every requirement gets a top-k selection. The written dict has one key per distinct requirement, in first-occurrence order, holding the matches of its last occurrence with `k` entries each. `get_reasoning_for_match` is called exactly once per match, in order. |
| Mapper.InternItems | util/mapper.py:65-99 | A profile with one work entry "Intern" of two responsibilities yields those two snippets, in order, labelled `Work Experience: Intern`. A job with one work-experience requirement yields that one requirement. |
| Mapper.InternScenario | util/mapper.py:111-130 | For that profile and job, whatever the scores and the chat service: `k = 2`, the dict has the single key of the requirement, and it holds two matches, best first, both labelled `Work Experience: Intern`. |
| Basics.OrderedCollectKeySet | util/mapper.py:128-130 | The dict built by assigning entry after entry holds each assigned key exactly once, and no other key. |
| Basics.OrderedCollectOrder | util/mapper.py:128-130 | Its keys come in the order they were first assigned, as a Python dict keeps them. |
| Basics.OrderedCollectValues | util/mapper.py:128-130 | Each key holds the value of the last entry that assigned it. |
| Basics.ReassignedKeyKeepsPlace | util/mapper.py:128-130 | Assigning `"a"`, `"b"` and then `"a"` again leaves `"a"` first, with its last value. |
| Strings.Strip | util/mapper.py:32 | The stripped string is the part of the input after its leading whitespace, with only whitespace after it. It neither begins nor ends with whitespace. |
| Strings.StripIdempotent | util/mapper.py:32 | Stripping twice is stripping once. |
| Menu.KeepMatching | main.py:20 | A name is kept iff it is listed and its lower-cased form ends with one of the extensions. |
| Menu.KeepMatchingAppend | main.py:20 | Filtering preserves listing order: the filter of a listing made of two parts is the filter of the first part followed by the filter of the second. |
| Menu.GetFilesInDir | main.py:17-22 | A missing directory lists nothing. Otherwise a name is returned iff the directory lists it and it carries one of the extensions. |
| Menu.GetDataStatus | main.py:24-33 | The result is `Transformed` iff the final file exists, whatever else exists. It is `Sanitized` iff the temp file exists and the final one does not. It is `Raw` iff neither exists and the raw directory lists a file with a default extension. It is `Missing` otherwise. |
| Menu.StatusMonotone | main.py:24-33 | Producing more of a pipeline's files never moves the reported status back. |
| Menu.ParseShowInt | main.py:49 | `int()` reads back the decimal spelling of an integer iff the spelling has at most 4300 digits, sign not counted. By `ShowNatLength` that means the absolute value is below 10^4300. Longer spellings are a `ValueError`. |
| Menu.ShowNatLength | main.py:49 | A natural number has at most `m` decimal digits iff it is below 10^m. |
| Menu.ParseDigits | main.py:49 | `int()` reads well-formed decimal digits, at most 4300 of them, as their value. |
| Menu.ParseNegated | main.py:49 | `int()` reads a minus sign followed by at most 4300 well-formed digits as the negated value. |
| Menu.TooManyDigits | main.py:49 | More than 4300 digits are a `ValueError`, leading zeros included. |
| Menu.TooManyDigitsNegated | main.py:49 | The same holds after a minus sign. |
| Menu.FileSeparatorRejected | main.py:49 | `int()` rejects a number preceded by U+001C, which `str.strip()` would remove. |
| Menu.NoBreakSpaceSkipped | main.py:49 | `int()` skips a no-break space before a number. |
| Menu.FirstAccepted | main.py:47-55 | The answer chosen is the first one that parses as an integer and names a listed file. Every earlier answer was rejected. None is chosen only when every answer was rejected. |
| Menu.ChosenIndex | main.py:49-51 | An accepted answer names the index `int(answer) - 1`, and that index is within the listing. |
| Menu.ChooseFile | main.py:38-55 | There is no result iff there are no files. A single file is returned without reading any answer. With two or more files, the input runs out iff no answer is accepted. |
| Menu.ChooseFileFaithful | main.py:38-55 | There is nothing to choose from iff the listing is empty, and a single file is returned without asking. Otherwise the path returned is the directory joined with the file named by the first accepted answer, every earlier answer having been rejected. The input runs out only when two or more files are listed and every answer was rejected. |
| Menu.SelectFileFromDir | main.py:35-55 | The guarantees of `ChooseFileFaithful`, stated over the listing that `get_files_in_dir` returns for the directory and extensions. |
| Menu.TypedNumberSelectsFile | main.py:44-51 | With two or more files listed, typing the 1-based number of file `c` selects file `c` after one answer, provided that number has at most 4300 digits. |
| Menu.JobMarkdownOption | main.py:226-230 | The `e2` option exists iff the expanded or the sanitized job description exists. It opens the expanded one when that exists, else the sanitized one. |
| Menu.EditOptionsOffered | main.py:223-234 | `e1`, `e3` and `e4` are offered iff their files exist. `e2` is offered iff either job description exists. |
| Menu.EditOptionPaths | main.py:223-234 | Each offered key opens its own file. `e2` prefers the expanded job description. |
| Menu.EditOptionKeysDistinct | main.py:223-234 | No key is offered twice. |
| Menu.EditOptionKeys | main.py:223-234 | Every offered key is one of `e1` to `e4`. |
| Menu.NoEditableMessageShown | main.py:236-240 | The "No editable files generated yet" line is printed iff there are no options. |
| Menu.DisplayMenu | main.py:203-244 | The personal status is `Transformed` iff the personal JSON exists, and the job status iff the job JSON exists. The job shows as expanded iff the expanded description exists. The options are empty iff none of the five editable files exists. The "No editable files" line is printed iff the options are empty. |

## Left out

- Embedding and `util.cos_sim` (util/mapper.py:59, 88, 105, 109): a foreign library and floating-point numerics. Scores are a similarity oracle over `real`.
- The `f"{score.item():.2f}"` formatting (util/mapper.py:125): the `similarity` field keeps the score itself.
- JSON loading and dumping, opening the prompt file, and writing the mappings file: parsed documents and the prompt text are inputs, and the `Saved` outcome stands for the written file. An `IOError` while saving is not modelled.
- JSON values of unexpected types, such as a non-list `responsibilities` or a non-string skill: the datatypes admit only well-typed documents.
- `experience.get('text', 'N/A')`: the default never applies, because every `experience_map` entry has a `text`.
- `print` status lines, `input()` prompts, and the interactive `main()` loop with its dispatch: only the decision logic is modelled.
- The details of the OpenAI client, such as messages, choices and network errors: the chat service is an oracle. Only the request fields and the reply or raised message matter.
- `util/transformer.py`, `util/sanitizer.py` and `util/composer.py` are not part of this model: they wrap foreign libraries and services.
- `run_sanitization`, `run_expansion` and `run_transformation` in `main.py` are not part of this model: they are file I/O around those wrappers.
- Strings.Lower: lower-cases ASCII letters only, whereas Python's `str.lower()` is Unicode-aware. This is exact for the ASCII extensions the program passes.
- Menu.ParseInt: accepts ASCII decimal digits only. `int()` also accepts other Unicode decimal digits. The digit limit is CPython's default of 4300; a limit changed through `sys.set_int_max_str_digits` or `PYTHONINTMAXSTRDIGITS` is not modelled.
- Reasoning.GetReasoningForMatch: the prompt file is one `Option<string>` for the whole run. The source opens the file again on every call, so a file that appears, disappears or changes during the run is not modelled. A prompt path that exists but cannot be read or decoded raises `IsADirectoryError`, `PermissionError` or `UnicodeDecodeError` in the source (util/mapper.py:13-17), which catches only `FileNotFoundError`; that exception aborts `generate_mappings` with nothing written. The model has no such outcome.
- Menu.GetFilesInDir: treats any failing `os.listdir` as a missing directory. The source catches only `FileNotFoundError`, so other errors would propagate.
- Menu.ChooseFile: an `input()` that hits end of file raises `EOFError` in the source. The model ends with `InputEnded` when the answers run out.
- Menu.Join: models POSIX `os.path.join` only.
