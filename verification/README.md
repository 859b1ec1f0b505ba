# whisper-cli request validation, in Dafny

A model of the request-validation and parameter-assembly layer of the
`whisper` command-line tool (`whisper_cli/main.py`), which sends local audio
files to a remote speech transcription/translation service. The model covers:

- **File-type extraction** (`get_file_type`): the last piece of the file name
  split on `.`. Python's `str.split` with an explicit separator is modelled
  literally (`FileType.Split`, with its `Join` inverse). The result is proved
  equal to an independent definition, "the text after the last dot, or the
  whole name".
- **Allow-list validators**: the extension check that guards
  `get_file_content` (mp3, mp4, mpeg, mpga, m4a, wav, webm; exact and
  case-sensitive) and `_check_response_format` (json, text, srt, verbose_json,
  vtt, or absent).
- **Active-key lookup** (`get_api_key`): the user configuration is the
  sequence of its (environment name, entry) items in dictionary iteration
  order. The api key of the first entry that *has* an `active` field is
  returned. Presence of the field counts, not its value.
- **Request assembly** for `transcribe` and `translate`: the order in which the
  checks fail, and the keyword arguments sent to the service. These are
  `model`, `file` and `temperature` always, plus `prompt`, `response_format`
  and `language` (transcribe only) exactly when supplied.

Modules: `Wrappers` (Option/Result), `Errors` (the tool's errors and their
messages), `FileType`, `Validation`, `Config`, `Requests`.

The error raised at whisper_cli/main.py:53-55 speaks of an active
environment ("Activate one using `whisper activate-env`"), but the loop at
whisper_cli/main.py:49-51 tests only whether an entry has an `active` field,
whatever its value. The model follows the code: `Config.ActiveValueIrrelevant`
shows that an entry whose field is `false` is still chosen.

## Model

| member | source | states |
|---|---|---|
| Errors.MessagesDistinguishKinds | whisper_cli/main.py:20-55 | two errors show the same message exactly when they are of the same kind, so the three `ValueError` texts and the `KeyError` text are pairwise distinct |
| FileType.Split | whisper_cli/main.py:17 | `str.split` with an explicit separator: there is at least one piece and no piece contains the separator |
| FileType.JoinSplit | whisper_cli/main.py:17 | joining the pieces of a split with the separator gives back the original string |
| FileType.SplitJoin | whisper_cli/main.py:17 | splitting a join of separator-free pieces (at least one piece) gives back the pieces |
| FileType.SplitNoSeparator | whisper_cli/main.py:17 | a string without the separator splits into itself alone |
| FileType.SplitLast | whisper_cli/main.py:17 | the last piece (`[-1]`) is a suffix of the string, and when the string holds a separator it directly follows one |
| FileType.GetFileType | whisper_cli/main.py:15-17 | the file type contains no `.`, is a suffix of the name, is the whole name when the name has no `.`, and otherwise directly follows a `.` |
| FileType.GetFileTypeIsAfterLastDot | whisper_cli/main.py:15-17 | the file type equals the text after the last `.` (found by scanning for the last dot), or the whole name when there is none |
| FileType.TrailingDotGivesEmpty | whisper_cli/main.py:15-17 | a name ending in `.` has the empty file type |
| FileType.FileTypeIs | whisper_cli/main.py:15-17 | for a dot-free `e`, the file type is `e` iff the name is `e` or ends with `.` followed by `e` |
| Validation.GetFileContent | whisper_cli/main.py:29-43 | the file is accepted iff its file type is one of the seven allowed extensions; if accepted, the file itself is handed on; otherwise the unsupported-file-type error is raised |
| Validation.AudioExtensionsEnumerated | whisper_cli/main.py:32-40 | a string is on the audio allow-list iff it is the extension of one of the seven enumerated audio types |
| Validation.GetFileContentAccepts | whisper_cli/main.py:32-41 | the file check accepts a name iff the name is an allowed extension itself or ends with `.` plus an allowed extension |
| Validation.UpperCaseExtensionRefused | whisper_cli/main.py:32-41 | `clip.WAV` is refused: the comparison is case-sensitive |
| Validation.TextFileRefused | whisper_cli/main.py:32-41 | `foo.txt` is refused |
| Validation.BareExtensionAccepted | whisper_cli/main.py:32-41 | the dot-free name `mp3` is accepted, because it is its own file type |
| Validation.WavFileAccepted | whisper_cli/main.py:32-41 | `clip.wav` is accepted |
| Validation.CheckResponseFormat | whisper_cli/main.py:20-26 | an absent format yields absent without error; the check passes iff the format is absent or allowed, and then returns it unchanged; any other string raises the unsupported-format error |
| Validation.CheckResponseFormatAccepts | whisper_cli/main.py:23 | a present format passes iff it is the name of one of the five enumerated response formats |
| Validation.CheckResponseFormatIdempotent | whisper_cli/main.py:20-26 | checking an already accepted format again gives the same result |
| Validation.XmlFormatRefused | whisper_cli/main.py:23-26 | `xml` is refused with the unsupported-format error |
| Config.FirstActive | whisper_cli/main.py:49-51 | the scan finds no index iff no entry has an `active` field; otherwise it finds the first such entry in iteration order |
| Config.GetApiKey | whisper_cli/main.py:46-55 | the no-active error is raised iff no entry has an `active` field; otherwise the result is the first such entry's api key, or a missing-key error if that entry has no `api_key` |
| Config.GetApiKeyIgnoresEnv | whisper_cli/main.py:46-51 | the result does not depend on the `env` argument |
| Config.EmptyConfigFails | whisper_cli/main.py:48-55 | an empty configuration always gives the no-active error |
| Config.LaterEntriesIgnored | whisper_cli/main.py:49-51 | once an earlier entry is active, appending entries changes nothing, so a later active entry is never chosen |
| Config.InactivePrefixSkipped | whisper_cli/main.py:49-51 | leading entries without an `active` field are skipped: the result is that of the remaining entries |
| Config.ActiveValueIrrelevant | whisper_cli/main.py:50-51 | a first entry with an `active` field is chosen whatever the field's value, even `false` |
| Requests.AddIfPresent | whisper_cli/main.py:83-88 | an optional argument adds its key, mapped to its text, iff it was supplied; existing entries are kept |
| Requests.Kwargs | whisper_cli/main.py:77-88 | the keyword arguments hold `model`, `file` and `temperature` with the given values; `prompt`, `response_format` and `language` appear iff supplied, mapped to the supplied text; there are no other keys |
| Requests.Transcribe | whisper_cli/main.py:64-90 | fails with the key-lookup error first, then with the file-type error, then with the format error; succeeds iff all three checks pass; then the request goes to the transcription endpoint with the active key and exactly the supplied arguments |
| Requests.Translate | whisper_cli/main.py:96-119 | same check order and success condition as `transcribe`; the request goes to the translation endpoint and never contains `language` |
| Requests.TranslateIsTranscribeWithoutLanguage | whisper_cli/main.py:105-117 | `translate` gives the same error or the same request as `transcribe` without a language, apart from the endpoint |
| Requests.NoActiveEnvironmentFailsFirst | whisper_cli/main.py:74-86 | with no active environment, both commands fail with the no-active error even if the file type or format is also bad |
| Requests.DefaultTranslationScenario | whisper_cli/main.py:96-117 | with one active environment `work` and file `clip.wav` at default options, the translation request holds exactly model `whisper-1`, the file and temperature 0 |
| Requests.DefaultTranscriptionScenario | whisper_cli/main.py:64-88 | with one active environment `work` and file `clip.wav` at default options, the request holds exactly model `whisper-1`, the file and temperature 0 |

## Left out

- The OpenAI client: building it (`OpenAI(api_key=...)`) and calling `transcriptions.create` / `translations.create`. This is an external network library. The model stops at the request that would be sent.
- `open(file_name, "rb")` and the file contents (I/O). The `file` argument is modelled as a reference to the file name (`FileRef`). The exceptions `open` raises are not modelled either: in the source they come after the file-type check and before the response-format check, so a missing `clip.wav` with response format `xml` raises `FileNotFoundError` there, while `Requests.Transcribe` gives the unsupported-format error.
- `typer` command registration, argument parsing, `rich.print` and `show_result`. These are user-interface glue. The defaults `whisper-1` and `0` appear only as `DefaultTranscribeArgs` / `DefaultTranslateArgs`.
- `whisper_cli/env.py` is not part of this model. This covers reading the configuration file and the commands that change it. The configuration is taken as an input sequence of (environment name, entry) items.
- Distinct environment names: a dictionary has distinct keys, but the configuration sequence is not required to. The lookup never compares names, so nothing depends on this.
- Temperature is a `real` passed through unchanged. Floating-point representation is not modelled.
