# Skin-analysis backend: answer parsing, retries and patient records

This project models the core of a small backend that sends photos of skin to a
chat model and keeps patient records ("anagrafiche") in JSON files.

- **Answer extraction.** `parse_chatbot_output` finds the two analysis markers
  `<attribute=analysis_result|` and `| attribute=analysis_result>` in the
  model's reply. It takes the text between them, strips it and decodes it with
  `json.loads`.
- **The analysis routine.** `main` saves the incoming images. It then sends a
  fixed four-turn conversation: the system prompt, a request with the images,
  an example answer, and the actual request naming the body zone with the same
  images. A parse failure of the reply becomes `None`.
- **The service around it.** `execute_main_with_retries` calls `main` up to
  `max_retries` times. `update_patient_analysis` appends the result to a
  patient's `analysis_history` in the user's records file.
- **The records service.** It holds a list loaded at start-up. Update and
  delete change that list and then write all of it to the file. Create appends
  to a fresh load of the file and leaves the list alone.
- **The prompt module.** `get_prompt` doubles every curly brace of the prompt.

The Dafny modules follow the source files.

- `PyStr` holds the Python `str` operations the core uses: `find`, `strip`,
  slicing, `str(n)` and `split(sep)[-1]`.
- `Json` is a decoder that behaves like `json.loads` on Python 3.11 and
  later. An integer with more than 4300 digits fails there: `int()` refuses it
  with a `ValueError`, and `main` returns `None` for it as for a syntax error.
- `JsonEncode` is a reference encoder. It proves that the decoder reads every
  well-formed value back from its encoding.
- `JsonWellFormed` proves that every value the decoder returns is
  well-formed. So the well-formed values are exactly the values `json.loads`
  can produce.
- `PromptGetter` models `agent/prompt_getter.py`.
- `AgentUtils` models `agent/agent_utils.py`.
- `Store` is the records-file state shared by the two services.
- `AgentApi` models `agent_api.py`.
- `PatientsApi` models `patients_api.py`. It is a class with the fields `file`
  and `mem`.

Some parts are parameters of the model.

- **The chat model and image decoding.** `AnalyzeImages` receives, as parameters, a
  predicate telling which payloads go through base64 decoding, opening the
  image and saving it as JPEG without raising, the base64 text of the
  JPEG saved for a payload, and the chat reply for a conversation (`None` when
  the call raises).
- **The request id and the clock.** `uuid4` and `datetime.now` are replaced by
  plain parameters.
- **The retried `main`.** The retry loop sees each call of `main` as an
  outcome indexed by the attempt number.

Two behaviours of the code are worth stating:

- **Bad image payloads are retried.** An exception from decoding an image
  escapes `main`, and `execute_main_with_retries` catches every exception, so
  such a payload costs an attempt like any other failure. It does not stop the
  retries.
- **The conversation is rebuilt on every attempt.** Each attempt calls `main`
  again, and `main` builds the conversation anew.

## Model

| member | source | states |
|---|---|---|
| PyStr.Find | agent/agent_utils.py:24-25 | `find` gives -1 exactly when the tag does not occur, and otherwise the lowest index where it occurs |
| PyStr.FindAfter | agent/agent_utils.py:24-25 | a tag whose first character does not recur inside it, placed after a text that lacks it, is found right after that text |
| PyStr.AbsentHead | agent/agent_utils.py:24-25 | a text lacking the tag's first character does not contain the tag |
| PyStr.Slice | agent/agent_utils.py:30 | `s[a:b]` clamps both bounds to the length and is empty when they cross; it keeps the characters in order |
| PyStr.Strip | agent/agent_utils.py:30 | `strip()` returns the contiguous middle of the text, and everything around it is whitespace; the result neither starts nor ends with whitespace |
| PyStr.StripAllSpace | agent/agent_utils.py:30 | stripping whitespace-only text gives the empty text |
| PyStr.StripUnspaced | agent/agent_utils.py:30 | a text that neither starts nor ends with whitespace is its own strip |
| PyStr.LastFieldIsSuffix | agent/agent_utils.py:51 | `split(",")[-1]` is the longest suffix without a comma: either the whole text or the part after a comma |
| PyStr.LastField | agent/agent_utils.py:51 | `split(sep)[-1]`: the characters after the last separator, or the whole text when there is none; its properties are stated by `PyStr.LastFieldIsSuffix` |
| PyStr.Decimal | agent/agent_utils.py:55 | `str(i + 1)` is a non-empty run of digits with no leading zero |
| PyStr.DecimalRoundTrip | agent/agent_utils.py:55 | the digits of `str(n)` read back as `n`, so distinct numbers give distinct names |
| Json.KeyIndex | agent_api.py:125 | `key in d` finds the key's position, or reports its absence when no member has the key |
| Json.Get | agent_api.py:118-125 | `d.get(k)` and `key in d`: the value at the key's position, or nothing when the key is absent; `Json.KeyIndex` and `Json.SetGet` state its properties |
| Json.SetGet | agent_api.py:128 | after `d[k] = v`, `k` reads as `v` and every other key reads as before |
| Json.Set | agent_api.py:128 | `d[k] = v`: an existing key keeps its position and takes the new value, a new key is appended at the end; `Json.SetGet`, `Json.SetDistinct` and `AgentApi.AddEntryInPlace` state its properties |
| Json.SetDistinct | agent_api.py:128 | `d[k] = v` keeps the keys of a dict distinct |
| Json.DecodeBlank | agent/agent_utils.py:33 | `json.loads` rejects empty and whitespace-only text |
| Json.LongIntegerRefused | agent/agent_utils.py:33 | `json.loads` fails on an integer with more than 4300 digits, because `int()` refuses to convert it |
| Json.Decode | agent/agent_utils.py:33 | `json.loads` on a `str`: `None` where Python raises, because of a syntax error, a byte order mark, text after the value, or an integer over 4300 digits. It has no contract of its own; `Json.DecodeBlank` and `JsonEncode.DecodeEncode` state its properties |
| JsonEncode.DecodeEncode | agent/agent_utils.py:33 | `json.loads` reads back every well-formed value from its compact encoding |
| JsonWellFormed.DecodeWellFormed | agent/agent_utils.py:33 | every value `json.loads` returns is well-formed: its number lexemes are read whole and converted, and its dicts have distinct keys. With `JsonEncode.DecodeEncode`, the round trip covers every value the decoder can produce |
| JsonEncode.EncodeStripped | agent/agent_utils.py:30 | an encoding neither starts nor ends with whitespace, so `strip()` leaves it unchanged |
| PromptGetter.ChainedReplacesArePerCharacter | agent/prompt_getter.py:33 | the two chained `replace` calls equal a single character-by-character map; the second never meets a brace the first introduced |
| PromptGetter.EscapeBracesMapsEachCharacter | agent/prompt_getter.py:33 | each `{` becomes `{{`, each `}` becomes `}}`, and every other character is kept, in order |
| PromptGetter.EscapeBracesLength | agent/prompt_getter.py:33 | the output length is the input length plus the number of `{` plus the number of `}` |
| PromptGetter.NoBracesUnchanged | agent/prompt_getter.py:33 | a text without braces is returned unchanged |
| PromptGetter.HalveDoubleBraces | agent/prompt_getter.py:33 | reading `{{` back as `{` and `}}` back as `}` recovers the original text: the doubling loses nothing |
| PromptGetter.DoubleBraces | agent/prompt_getter.py:33 | the two chained `replace` calls; the four lemmas above state what they do |
| PromptGetter.GetPrompt | agent/prompt_getter.py:32-33 | `get_prompt()`: the prompt with its braces doubled, so the properties of `PromptGetter.DoubleBraces` apply to it |
| AgentUtils.FromDecode | agent/agent_utils.py:32-36 | a `json.loads` failure becomes the JSON `ValueError`, and a success returns the decoded value |
| AgentUtils.ParseChatbotOutput | agent/agent_utils.py:21-36 | the format error is raised exactly when the end tag is absent; a missing start tag is not detected |
| AgentUtils.TagsInOrder | agent/agent_utils.py:24-30 | when the start tag precedes the end tag, the decoded text is exactly what lies between the end of the first start tag and the first end tag, stripped |
| AgentUtils.MissingStartTag | agent/agent_utils.py:24-28 | with no start tag and an end tag present, no format error is raised, and the slice starts at offset 26 |
| AgentUtils.EndTagTooEarly | agent/agent_utils.py:24-36 | when the first end tag is at or before the end of the start tag, the slice is empty and the JSON error is raised |
| AgentUtils.ExtractionRoundTrip | agent/agent_utils.py:22-34 | for a prefix without a start tag and a payload without an end tag, `prefix + start + payload + end + suffix` parses as `json.loads(payload.strip())` |
| AgentUtils.WireRoundTrip | agent/agent_utils.py:22-34 | a well-formed value, written compactly between the tags, parses back to itself |
| AgentUtils.UntaggedRead | agent/agent_utils.py:24-30 | in a reply without a start tag, the text from offset 26 up to the end tag is decoded as if a start tag were there |
| AgentUtils.UntaggedReplyAccepted | agent/agent_utils.py:24-34 | a concrete reply with no start tag is accepted and yields `{}` |
| AgentUtils.Conversation | agent/agent_utils.py:79-139 | the four messages `main` sends; their shape is stated by `AgentUtils.ConversationShape` and `AgentUtils.BodyZoneOnlyInLastTurn` |
| AgentUtils.Render | agent/agent_utils.py:79-136 | the characters of each conversation text: the raw prompt, the fixed request and answer texts, and the last request with the body zone put in; `AgentUtils.ConversationShape` states the conversation's shape over these texts |
| AgentUtils.ConversationShape | agent/agent_utils.py:79-139 | the conversation has four turns: system, human, AI, human. Both human turns carry the same images, in input order, as JPEG data URLs with `auto` detail |
| AgentUtils.BodyZoneOnlyInLastTurn | agent/agent_utils.py:106-139 | the body zone affects only the last turn: the first three turns do not depend on it, and distinct zones give distinct last turns |
| AgentUtils.ImagePath | agent/agent_utils.py:42-55 | `os.path.join("saved_images", id, f"image_{i + 1}.jpeg")`; `AgentUtils.ImagePathsDistinct` states that distinct positions give distinct paths |
| AgentUtils.ImagePathsDistinct | agent/agent_utils.py:42-55 | distinct image positions are saved under distinct file names |
| AgentUtils.MainResult | agent/agent_utils.py:144-149 | a parse failure gives `None` without raising; otherwise the parsed value is returned, and a JSON `null` is `None` too |
| AgentUtils.MainResultWire | agent/agent_utils.py:139-149 | a reply carrying a tagged, compactly written non-null value makes `main` return that value |
| AgentUtils.LongIntegerGivesNone | agent/agent_utils.py:32-36 | a tagged integer with more than 4300 digits makes the parser raise, and `main` returns `None` for it |
| AgentUtils.Payload | agent/agent_utils.py:51 | the base64 part of a data URL, `image.split(",")[-1]`: a suffix without a comma, by `PyStr.LastFieldIsSuffix` |
| AgentUtils.SentImages | agent/agent_utils.py:63-72 | the JPEG of each payload, in input order, as both human turns carry them |
| AgentUtils.ChatOutcome | agent/agent_utils.py:139-149 | `main` raises exactly when the chat call fails, and never returns a JSON `null`: a reply gives the result of `AgentUtils.MainResult` |
| AgentUtils.AnalyzeImages | agent/agent_utils.py:39-149 | with the body zone "Non specificata" unless given, image `i` is saved as `saved_images/<id>/image_<i+1>.jpeg`, in order. The first payload that fails to decode, to open or to be saved as JPEG raises, and nothing after it is saved. Otherwise the result is that of parsing the chat reply to the four-turn conversation, and a failing chat call raises |
| AgentApi.ExecuteMainWithRetries | agent_api.py:88-101 | with `max_retries` 3 unless given, makes at most `max(max_retries, 0)` calls and returns the first non-`None` result, with no call after it. `None` and exceptions are failed attempts. It raises after exactly `max(max_retries, 0)` calls when all fail, and succeeds exactly when some attempt within the limit succeeds |
| AgentApi.UserFiles.Load | agent_api.py:62-75 | `load_user_anagrafiche`: the user's stored records, or the empty list for a missing or corrupt file |
| AgentApi.FindPatient | agent_api.py:118-120 | the search finds the first record whose `id` is the patient id. It reports no patient exactly when every record is a dict without that id |
| AgentApi.FindPatientNotADict | agent_api.py:118 | an `AttributeError` from the search comes from a non-dict record, met before any match |
| AgentApi.Entry | agent_api.py:123-124 | the entry is a dict with exactly two distinct keys, whose `timestamp` reads as the time and whose `result` reads as the analysis |
| AgentApi.AddEntry | agent_api.py:125-128 | fails, with the `AttributeError` of `append`, exactly when the patient has a history that is not a list |
| AgentApi.AddAnalysis | agent_api.py:115-128 | the records after the update, or the error raised before saving; its properties are stated by `AgentApi.AddAnalysisFrame` |
| AgentApi.AddEntryChangesOnlyHistory | agent_api.py:123-128 | the history gains exactly the new entry at its end, and an absent history becomes a one-element list. Every other field reads as before, and keys stay distinct |
| AgentApi.AddEntryInPlace | agent_api.py:125-126 | an existing history list keeps its place among the patient's fields |
| AgentApi.AddAnalysisFrame | agent_api.py:115-128 | fails with not-found exactly when no record matches. On success only the first matching record changes, and the list keeps its length and order |
| AgentApi.UserFiles.UpdatePatientAnalysis | agent_api.py:104-131 | on success, only this user's file is rewritten, holding the loaded records with the entry added. On any error nothing is saved |
| PatientsApi.Locate | patients_api.py:92-93 | the scan finds the first record with the id, or reports none exactly when every record has a readable, different id |
| PatientsApi.LocateUnreadable | patients_api.py:93 | a scan that raises has met a record without a readable `id` before any match |
| PatientsApi.Pinned | patients_api.py:94-95 | the submitted record with its `id` set to the path id; its properties are stated by `PatientsApi.PinnedFields` |
| PatientsApi.PinnedFields | patients_api.py:94-95 | the stored record carries the path id, and otherwise the submitted fields |
| PatientsApi.Without | patients_api.py:107 | `list.pop(i)` of the records; its properties are stated by `PatientsApi.WithoutRemovesOne` |
| PatientsApi.WithoutRemovesOne | patients_api.py:107 | popping the first match drops exactly that record: the others keep their order and the length drops by one |
| PatientsApi.StaleListDropsCreated | patients_api.py:70-108 | a record that create wrote to the file but that is not in the in-memory list is missing from the file after a later update or delete |
| Store.LoadOrEmpty | patients_api.py:24-28 | the records a file holds, or the empty list for a missing or corrupt file |
| PatientsApi.PatientRegistry.constructor | patients_api.py:24-28 | at start-up the list is loaded from the file; an absent or corrupt file gives the empty list |
| PatientsApi.PatientRegistry.CreateAnagrafica | patients_api.py:66-85 | appends the record to a fresh load of the file, with no id check, and writes the file. The in-memory list is unchanged, and a corrupt file gives 500 |
| PatientsApi.PatientRegistry.UpdateAnagrafica | patients_api.py:87-98 | replaces the first match in place with the submitted record, its id pinned, and writes the list to the file. Later duplicates and all other records are untouched. No match gives 404, and an unreadable id gives 500; both leave list and file unchanged |
| PatientsApi.PatientRegistry.DeleteAnagrafica | patients_api.py:100-110 | removes and returns the first match, and writes the list to the file. No match gives 404, and an unreadable id gives 500; both leave list and file unchanged |

## Left out

- The chat model call, base64 and image decoding, JPEG re-encoding, `uuid4`, directory creation and file writes are not modelled. They are parameters of `AgentUtils.AnalyzeImages`, which returns the names of the files it would write instead of writing them.
- `AgentUtils.AnalyzeImages`: a failing image is a single predicate over its payload. The model does not tell apart base64 errors, unreadable images and images that cannot be saved as JPEG (for example a PNG with an alpha channel, whose mode JPEG cannot hold); all three raise out of `main`.
- The texts of the conversation are given by name (`AgentUtils.Text`). `AgentUtils.Render` holds their characters. The lemmas speak about the names, so that no proof has to read the long prompt texts.
- The system turn's content is a plain string in the source. Here it is a one-part list, like the other turns.
- `print` calls and the text of error messages are not modelled.
- `Json.Decode` keeps numbers as their lexemes, where `json.loads` builds `int` and `float` values. So `1.0` and `1.00` stay distinct, and float rounding is not modelled.
- The integer digit limit is taken at its default of 4300, as in Python 3.11 and later. A limit changed with `sys.set_int_max_str_digits`, and older interpreters without the limit, are not modelled.
- A `\u` escape of a lone surrogate is rejected by the model, because Dafny characters cannot hold one; Python accepts it.
- The depth limit of Python's recursion (`RecursionError` on deeply nested JSON) is not modelled.
- The encoder in `JsonEncode` writes compact JSON. It is a reference for the round trip, not a model of `json.dump(..., indent=4)`.
- A records file is modelled as its decoded list. A file that fails to load with an exception other than a missing file or a JSON syntax error, such as a `UnicodeDecodeError` on bytes that are not UTF-8, reads as the empty list here. In the source that exception escapes `load_user_anagrafiche` and the module start-up. A file holding JSON that is not a list, and failures while writing a file, are not modelled.
- `AgentApi.UserFiles.UpdatePatientAnalysis`: `get_user_anagrafiche_file` creating the user's folder is left out. It only touches the file system.
- The request validation of FastAPI and pydantic is not modelled: the `Anagrafica` schema and the `response_model` checks. Records are plain JSON objects.
- HTTP routing, CORS, credentials, the `analyze_skin` endpoint and the server start-up are not modelled.
- Concurrency is not modelled: racing read-modify-writes of the same file are out, and the model is sequential.
- `get_prompt` is modelled, but `main` does not call it: the system turn carries the raw prompt.
