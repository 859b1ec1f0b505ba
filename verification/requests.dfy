/** The `transcribe` and `translate` commands up to the call into the
    transcription service: look up the active api key, check the file type,
    assemble the keyword arguments (only the optional ones the user supplied)
    and check the response format. The service call and the printing of its
    answer are outside the model; the result here is the request that would
    be sent. */
module Requests {

  import opened Wrappers
  import opened Errors
  import opened Validation
  import opened Config

  const DefaultModel: string := "whisper-1"
  const DefaultTemperature: real := 0.0

  /** Which service endpoint the request is for. */
  datatype Operation = Transcription | Translation

  /** A keyword-argument value. There is no "null" value: absent optional
      arguments are left out of the map instead. */
  datatype ParamValue = Str(text: string) | File(file: FileRef) | Temperature(temperature: real)

  type Params = map<string, ParamValue>

  /** The request handed to the service client: the client's api key, the
      endpoint and the keyword arguments. */
  datatype Request = Request(operation: Operation, apiKey: string, params: Params)

  /** Command-line arguments of `transcribe`. */
  datatype TranscribeArgs = TranscribeArgs(
    fileName: string,
    model: string,
    prompt: Option<string>,
    responseFormat: Option<string>,
    temperature: real,
    language: Option<string>)

  /** Command-line arguments of `translate` (no language option). */
  datatype TranslateArgs = TranslateArgs(
    fileName: string,
    model: string,
    prompt: Option<string>,
    responseFormat: Option<string>,
    temperature: real)

  /** Arguments of `transcribe` with every option left at its default. */
  function DefaultTranscribeArgs(fileName: string): TranscribeArgs
  {
    TranscribeArgs(fileName, DefaultModel, None, None, DefaultTemperature, None)
  }

  /** Arguments of `translate` with every option left at its default. */
  function DefaultTranslateArgs(fileName: string): TranslateArgs
  {
    TranslateArgs(fileName, DefaultModel, None, None, DefaultTemperature)
  }

  /** Adds `key := Str(v)` when the optional argument is present. */
  function AddIfPresent(params: Params, key: string, arg: Option<string>): (p: Params)
    requires key !in params
    ensures p.Keys == params.Keys + KeyIfPresent(key, arg)
    ensures forall k :: k in params ==> p[k] == params[k]
    ensures HasOptional(p, key, arg)
  {
    match arg
    case None => params
    case Some(v) => params[key := Str(v)]
  }

  /** The keys always present in the keyword arguments. */
  const RequiredKeys: set<string> := {"model", "file", "temperature"}

  /** `{key}` when the optional argument was supplied, else no key. */
  function KeyIfPresent(key: string, arg: Option<string>): set<string>
  {
    if arg.Some? then {key} else {}
  }

  /** The required arguments are present with the values given. */
  predicate HasRequired(params: Params, model: string, file: FileRef, temperature: real)
  {
    && "model" in params && params["model"] == Str(model)
    && "file" in params && params["file"] == File(file)
    && "temperature" in params && params["temperature"] == Temperature(temperature)
  }

  /** The optional argument `key` is present exactly when it was supplied,
      and then maps to the supplied text. */
  predicate HasOptional(params: Params, key: string, arg: Option<string>)
  {
    && (key in params <==> arg.Some?)
    && (arg.Some? ==> key in params && params[key] == Str(arg.value))
  }

  /** The keyword arguments: the three required ones, then each optional
      one that was supplied. */
  function Kwargs(model: string, file: FileRef, temperature: real, prompt: Option<string>,
                  format: Option<string>, language: Option<string>): (p: Params)
    ensures HasRequired(p, model, file, temperature)
    ensures HasOptional(p, "prompt", prompt)
    ensures HasOptional(p, "response_format", format)
    ensures HasOptional(p, "language", language)
    ensures p.Keys == RequiredKeys + KeyIfPresent("prompt", prompt)
      + KeyIfPresent("response_format", format) + KeyIfPresent("language", language)
  {
    var base := map["model" := Str(model), "file" := File(file),
                    "temperature" := Temperature(temperature)];
    assert "prompt" !in base && "response_format" !in base && "language" !in base;
    var withPrompt := AddIfPresent(base, "prompt", prompt);
    var withFormat := AddIfPresent(withPrompt, "response_format", format);
    AddIfPresent(withFormat, "language", language)
  }

  /** `transcribe`. The api-key lookup comes first, then the file check,
      then the response-format check; the first failure is the result. */
  function Transcribe(config: UserConfig, args: TranscribeArgs): (r: Result<Request, Error>)
    ensures GetApiKey(config, DefaultEnv).Failure? ==>
      r == Failure(GetApiKey(config, DefaultEnv).error)
    ensures GetApiKey(config, DefaultEnv).Success? && GetFileContent(args.fileName).Failure? ==>
      r == Failure(UnsupportedFileType)
    ensures GetApiKey(config, DefaultEnv).Success? && GetFileContent(args.fileName).Success?
            && CheckResponseFormat(args.responseFormat).Failure? ==>
      r == Failure(UnsupportedResponseFormat)
    ensures r.Success? <==>
      && GetApiKey(config, DefaultEnv).Success?
      && GetFileContent(args.fileName).Success?
      && CheckResponseFormat(args.responseFormat).Success?
    ensures r.Success? ==>
      && r.value.operation == Transcription
      && r.value.apiKey == GetApiKey(config, DefaultEnv).value
      && HasRequired(r.value.params, args.model, FileRef(args.fileName), args.temperature)
      && HasOptional(r.value.params, "prompt", args.prompt)
      && HasOptional(r.value.params, "response_format", args.responseFormat)
      && HasOptional(r.value.params, "language", args.language)
      && r.value.params.Keys == RequiredKeys + KeyIfPresent("prompt", args.prompt)
           + KeyIfPresent("response_format", args.responseFormat)
           + KeyIfPresent("language", args.language)
  {
    var apiKey :- GetApiKey(config, DefaultEnv);
    var file :- GetFileContent(args.fileName);
    var format :- CheckResponseFormat(args.responseFormat);
    Success(Request(Transcription, apiKey,
      Kwargs(args.model, file, args.temperature, args.prompt, format, args.language)))
  }

  /** `translate`: as `transcribe`, without a language argument. */
  function Translate(config: UserConfig, args: TranslateArgs): (r: Result<Request, Error>)
    ensures GetApiKey(config, DefaultEnv).Failure? ==>
      r == Failure(GetApiKey(config, DefaultEnv).error)
    ensures GetApiKey(config, DefaultEnv).Success? && GetFileContent(args.fileName).Failure? ==>
      r == Failure(UnsupportedFileType)
    ensures GetApiKey(config, DefaultEnv).Success? && GetFileContent(args.fileName).Success?
            && CheckResponseFormat(args.responseFormat).Failure? ==>
      r == Failure(UnsupportedResponseFormat)
    ensures r.Success? <==>
      && GetApiKey(config, DefaultEnv).Success?
      && GetFileContent(args.fileName).Success?
      && CheckResponseFormat(args.responseFormat).Success?
    ensures r.Success? ==>
      && r.value.operation == Translation
      && r.value.apiKey == GetApiKey(config, DefaultEnv).value
      && "language" !in r.value.params
      && HasRequired(r.value.params, args.model, FileRef(args.fileName), args.temperature)
      && HasOptional(r.value.params, "prompt", args.prompt)
      && HasOptional(r.value.params, "response_format", args.responseFormat)
      && r.value.params.Keys == RequiredKeys + KeyIfPresent("prompt", args.prompt)
           + KeyIfPresent("response_format", args.responseFormat)
  {
    var apiKey :- GetApiKey(config, DefaultEnv);
    var file :- GetFileContent(args.fileName);
    var format :- CheckResponseFormat(args.responseFormat);
    Success(Request(Translation, apiKey,
      Kwargs(args.model, file, args.temperature, args.prompt, format, None)))
  }

  /** The `transcribe` arguments that carry the same values as a `translate`
      call and no language. */
  function AsTranscribeArgs(args: TranslateArgs): TranscribeArgs
  {
    TranscribeArgs(args.fileName, args.model, args.prompt, args.responseFormat,
                   args.temperature, None)
  }

  /** `translate` behaves as `transcribe` without a language, except that
      the request goes to the translation endpoint. */
  lemma TranslateIsTranscribeWithoutLanguage(config: UserConfig, args: TranslateArgs)
    ensures Translate(config, args).Failure? <==> Transcribe(config, AsTranscribeArgs(args)).Failure?
    ensures Translate(config, args).Failure? ==>
      Translate(config, args).error == Transcribe(config, AsTranscribeArgs(args)).error
    ensures Translate(config, args).Success? ==>
      Translate(config, args).value ==
        Transcribe(config, AsTranscribeArgs(args)).value.(operation := Translation)
  {
  }

  /** Without an active environment both commands fail with the no-active
      error, whatever the file name and response format. */
  lemma NoActiveEnvironmentFailsFirst(config: UserConfig, t: TranscribeArgs, u: TranslateArgs)
    requires NoneActive(config)
    ensures Transcribe(config, t) == Failure(NoActiveEnvironment)
    ensures Translate(config, u) == Failure(NoActiveEnvironment)
  {
  }

  /** One environment "work" that is active, the file "clip.wav" and every
      option left at its default: the request carries the default model and
      temperature, the file, and no optional argument. */
  lemma DefaultTranscriptionScenario()
    ensures Transcribe([("work", Entry(Some("sk-work"), Some(true)))],
                       DefaultTranscribeArgs("clip.wav"))
      == Success(Request(Transcription, "sk-work",
                         map["model" := Str("whisper-1"),
                             "file" := File(FileRef("clip.wav")),
                             "temperature" := Temperature(0.0)]))
  {
    var config := [("work", Entry(Some("sk-work"), Some(true)))];
    assert IsFirstActive(config, 0);
    WavFileAccepted();
    var r := Transcribe(config, DefaultTranscribeArgs("clip.wav"));
    var expected := map["model" := Str("whisper-1"),
                        "file" := File(FileRef("clip.wav")),
                        "temperature" := Temperature(0.0)];
    assert r.value.params.Keys == expected.Keys;
  }

  /** The same scenario for `translate`: the request goes to the translation
      endpoint and holds exactly the default model, the file and temperature 0. */
  lemma DefaultTranslationScenario()
    ensures Translate([("work", Entry(Some("sk-work"), Some(true)))],
                      DefaultTranslateArgs("clip.wav"))
      == Success(Request(Translation, "sk-work",
                         map["model" := Str("whisper-1"),
                             "file" := File(FileRef("clip.wav")),
                             "temperature" := Temperature(0.0)]))
  {
    var config := [("work", Entry(Some("sk-work"), Some(true)))];
    assert IsFirstActive(config, 0);
    WavFileAccepted();
    var r := Translate(config, DefaultTranslateArgs("clip.wav"));
    var expected := map["model" := Str("whisper-1"),
                        "file" := File(FileRef("clip.wav")),
                        "temperature" := Temperature(0.0)];
    assert r.value.params.Keys == expected.Keys;
  }
}
