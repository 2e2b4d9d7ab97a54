/**
 * The decisions of the HTTP endpoints: which guard answers first and with which
 * status code, how the model list combines each model's status with its loaded
 * flag, the text-length bounds of a speech request, and the file-name check that
 * keeps audio requests inside the output directory.
 */
module Api {
  import opened Common
  import opened Text
  import Config
  import Downloader
  import TtsService
  import EventStream

  /** What an endpoint answers: its body, or an `HTTPException` with a status code and a detail. */
  datatype Response<+T> = Success(body: T) | HttpError(status: nat, detail: string)

  /** `{"success": ..., "message": ...}`. */
  datatype Outcome = Outcome(success: bool, message: string)

  // ---------------------------------------------------------------------------
  // Models

  /** One entry of the model list: the model's status dictionary plus `loaded`. */
  datatype ModelEntry = ModelEntry(status: Downloader.ModelStatus, loaded: bool)

  /** `list_models`: the loop over the statuses, each extended with whether the model is loaded. */
  method ListModels(service: TtsService.TTSService, disk: Downloader.Disk) returns (models: seq<ModelEntry>)
    requires service.Valid()
    ensures |models| == |Config.ModelOrder|
    ensures forall i | 0 <= i < |models| ::
      && models[i].status == Downloader.GetModelStatus(disk, Config.ModelOrder[i])
      && models[i].status.KnownStatus? && models[i].status.key == Config.ModelOrder[i]
      && (models[i].loaded <==> Config.ModelOrder[i] in service.engines)
  {
    var statuses := Downloader.GetAllModelsStatus(disk);
    Downloader.AllModelsStatusShape(disk);
    models := [];
    for i := 0 to |statuses|
      invariant |models| == i
      invariant forall j | 0 <= j < i ::
        models[j] == ModelEntry(statuses[j].1, service.IsModelLoaded(statuses[j].0))
    {
      var (key, status) := statuses[i];
      models := models + [ModelEntry(status, service.IsModelLoaded(key))];
    }
  }

  /** `get_model`. */
  function GetModel(service: TtsService.TTSService, disk: Downloader.Disk, key: string): (r: Response<ModelEntry>)
    reads service
    requires service.Valid()
    ensures r.HttpError? <==> key !in Config.Models
    ensures r.HttpError? ==> r == HttpError(404, "Model not found")
    ensures r.Success? ==>
      && r.body.status == Downloader.GetModelStatus(disk, key)
      && r.body.status.KnownStatus? && r.body.status.key == key
      && r.body.status.name == Config.Models[key].name && r.body.status.repoId == Config.Models[key].repoId
      && (r.body.status.downloaded <==> Downloader.IsModelDownloaded(disk, key))
      && (r.body.status.localPath.Some? <==> r.body.status.downloaded)
      && (r.body.status.localPath.Some? ==> r.body.status.localPath.value == Config.Models[key].localPath)
      && (r.body.loaded <==> key in service.engines)
  {
    if key !in Config.Models then HttpError(404, "Model not found")
    else Success(ModelEntry(Downloader.GetModelStatus(disk, key), service.IsModelLoaded(key)))
  }

  /** `get_speakers`. */
  function GetSpeakers(key: string): (r: Response<seq<Config.Speaker>>) {
    if key !in Config.Models then HttpError(404, "Model not found")
    else Success(if key in Config.Speakers then Config.Speakers[key] else [])
  }

  /** Every catalog model gets its own speaker list, never the empty fallback; other keys get 404. */
  lemma GetSpeakersShape(key: string)
    ensures key !in Config.Models ==> GetSpeakers(key) == HttpError(404, "Model not found")
    ensures key in Config.Models ==> key in Config.Speakers && GetSpeakers(key) == Success(Config.Speakers[key])
    ensures key in Config.Models ==> |GetSpeakers(key).body| >= 2
  {
    Config.CatalogKeys();
  }

  /**
   * `download_model`: the stream of server-sent events of the download, each
   * event's payload written by `encode` (`json.dumps`).
   */
  function DownloadModel(key: string, disk: Downloader.Disk, repo: Result<Downloader.RepoInfo, Downloader.HubError>,
                         polls: seq<Downloader.Poll>, outcome: Downloader.DownloadOutcome,
                         encode: Downloader.Event -> string): Response<string>
  {
    if key !in Config.Models then HttpError(404, "Model not found")
    else
      var events := Downloader.DownloadTrace(key, disk, repo, polls, outcome);
      Success(EventStream.Stream(seq(|events|, i requires 0 <= i < |events| => encode(events[i]))))
  }

  /**
   * An unknown key is refused with 404 and no stream.  For a known key the client
   * reads back one event per step of the download, in order, ending with the
   * single terminal event, as long as the encoder writes each payload on one line.
   */
  lemma DownloadStream(key: string, disk: Downloader.Disk, repo: Result<Downloader.RepoInfo, Downloader.HubError>,
                       polls: seq<Downloader.Poll>, outcome: Downloader.DownloadOutcome,
                       encode: Downloader.Event -> string)
    requires forall e :: EventStream.SingleLine(encode(e))
    ensures key !in Config.Models ==> DownloadModel(key, disk, repo, polls, outcome, encode) == HttpError(404, "Model not found")
    ensures key in Config.Models ==>
      var events := Downloader.DownloadTrace(key, disk, repo, polls, outcome);
      var r := DownloadModel(key, disk, repo, polls, outcome, encode);
      && r.Success?
      && var read := EventStream.Interpret(r.body);
         && |read| == |events|
         && (forall i | 0 <= i < |events| :: read[i] == encode(events[i]))
         && Downloader.WellFormedTrace(events)
  {
    if key in Config.Models {
      var events := Downloader.DownloadTrace(key, disk, repo, polls, outcome);
      var payloads := seq(|events|, i requires 0 <= i < |events| => encode(events[i]));
      EventStream.StreamRoundTrip(payloads);
      Downloader.TraceWellFormed(key, disk, repo, polls, outcome);
    }
  }

  // ---------------------------------------------------------------------------
  // Loading and unloading

  /** `load_model` (the endpoint), on the service's state. */
  function LoadResponse(st: TtsService.State, key: string, disk: Downloader.Disk, loadError: Option<string>)
    : (TtsService.State, Response<Outcome>)
  {
    if key !in Config.Models then (st, HttpError(404, "Model not found"))
    else if !Downloader.IsModelDownloaded(disk, key) then (st, HttpError(400, "Model not downloaded"))
    else
      var step := TtsService.LoadStep(st, key, disk, loadError);
      match step.1
      case Err(e) => (step.0, HttpError(500, e.message))
      case Ok(_) => (step.0, Success(Outcome(true, "Model " + key + " loaded")))
  }

  /** `unload_model` (the endpoint), on the service's state. */
  function UnloadResponse(st: TtsService.State, key: string): (TtsService.State, Response<Outcome>) {
    if key !in Config.Models then (st, HttpError(404, "Model not found"))
    else (TtsService.UnloadStep(st, key).0, Success(Outcome(true, "Model " + key + " unloaded")))
  }

  method LoadModel(service: TtsService.TTSService, key: string, disk: Downloader.Disk, loadError: Option<string>)
    returns (r: Response<Outcome>)
    requires service.Valid()
    modifies service
    ensures service.Valid()
    ensures (service.Abstract(), r) == LoadResponse(old(service.Abstract()), key, disk, loadError)
  {
    if key !in Config.Models {
      return HttpError(404, "Model not found");
    }
    if !Downloader.IsModelDownloaded(disk, key) {
      return HttpError(400, "Model not downloaded");
    }
    var loaded := service.LoadModel(key, disk, loadError);
    match loaded {
      case Err(e) => return HttpError(500, e.message);
      case Ok(_) => return Success(Outcome(true, "Model " + key + " loaded"));
    }
  }

  method UnloadModel(service: TtsService.TTSService, key: string) returns (r: Response<Outcome>)
    requires service.Valid()
    modifies service
    ensures service.Valid()
    ensures (service.Abstract(), r) == UnloadResponse(old(service.Abstract()), key)
  {
    if key !in Config.Models {
      return HttpError(404, "Model not found");
    }
    var _ := service.UnloadModel(key);
    return Success(Outcome(true, "Model " + key + " unloaded"));
  }

  /**
   * Loading through the endpoint: an unknown key is 404 and a model not on disk is
   * 400, both without touching the service; for a model on disk the only failure
   * left is the model's construction, reported as 500 with the loader's message;
   * otherwise the model is loaded and current.
   */
  lemma LoadResponseShape(st: TtsService.State, key: string, disk: Downloader.Disk, loadError: Option<string>)
    ensures key !in Config.Models ==> LoadResponse(st, key, disk, loadError) == (st, HttpError(404, "Model not found"))
    ensures key in Config.Models && !Downloader.IsModelDownloaded(disk, key) ==>
      LoadResponse(st, key, disk, loadError) == (st, HttpError(400, "Model not downloaded"))
    ensures key in Config.Models && Downloader.IsModelDownloaded(disk, key) ==>
      var out := LoadResponse(st, key, disk, loadError);
      && (out.1.HttpError? <==> key !in st.engines && loadError.Some?)
      && (out.1.HttpError? ==> out == (st, HttpError(500, "Failed to load model: " + loadError.value)))
      && (out.1.Success? ==> key in out.0.engines && out.0.current == Some(key))
  {
  }

  /**
   * Unloading through the endpoint reports success for every catalog model, loaded
   * or not, and afterwards the model is not loaded; other keys are 404 and change
   * nothing.
   */
  lemma UnloadResponseShape(st: TtsService.State, key: string)
    requires TtsService.WellFormed(st)
    ensures key !in Config.Models ==> UnloadResponse(st, key) == (st, HttpError(404, "Model not found"))
    ensures key in Config.Models ==>
      var out := UnloadResponse(st, key);
      out.1 == Success(Outcome(true, "Model " + key + " unloaded")) && key !in out.0.engines
    ensures key in Config.Models && key !in st.engines ==> UnloadResponse(st, key).0 == st
  {
    TtsService.UnloadOutcome(st, key);
  }

  // ---------------------------------------------------------------------------
  // Speech

  /** `TTSRequest` once validated; temperature and top_p are left out. */
  datatype TTSRequest = TTSRequest(text: string, model: string, speaker: Option<string>)

  /** Why a request body is refused before any endpoint code runs. */
  datatype ValidationError = TextTooShort | TextTooLong

  const MaxTextLength := 5000

  /** Request validation: the text must hold 1 to 5000 characters; the model defaults to `en`. */
  function MakeRequest(text: string, model: Option<string>, speaker: Option<string>): (r: Result<TTSRequest, ValidationError>)
    ensures r.Ok? <==> 1 <= |text| <= MaxTextLength
    ensures r.Ok? ==> r.value.text == text && r.value.speaker == speaker
    ensures r.Ok? ==> r.value.model == (if model.Some? then model.value else "en")
  {
    if |text| < 1 then Err(TextTooShort)
    else if |text| > MaxTextLength then Err(TextTooLong)
    else Ok(TTSRequest(text, if model.None? then "en" else model.value, speaker))
  }

  /** `TTSResponse`. */
  datatype TTSResponse = TTSResponse(success: bool, filename: string, audioUrl: string, text: string, model: string)

  /** `generate_speech`, on the service's state. */
  function SpeechResponse(st: TtsService.State, request: TTSRequest, disk: Downloader.Disk, loadError: Option<string>,
                          synth: TtsService.Synthesizer, saveError: Option<string>, token: string)
    : (TtsService.State, Response<TTSResponse>)
  {
    if request.model !in Config.Models then (st, HttpError(400, "Invalid model"))
    else if !Downloader.IsModelDownloaded(disk, request.model) then
      (st, HttpError(400, "Model " + request.model + " is not downloaded. Please download it first."))
    else
      var step := TtsService.GenerateStep(st, request.text, request.model, request.speaker, disk, loadError, synth, saveError, token);
      match step.1
      case Err(ValueError(m)) => (step.0, HttpError(400, m))
      case Err(RuntimeError(m)) => (step.0, HttpError(500, m))
      case Ok(g) => (step.0, Success(TTSResponse(true, g.filename, "/api/audio/" + g.filename, request.text, request.model)))
  }

  method GenerateSpeech(service: TtsService.TTSService, request: TTSRequest, disk: Downloader.Disk,
                        loadError: Option<string>, synth: TtsService.Synthesizer, saveError: Option<string>, token: string)
    returns (r: Response<TTSResponse>)
    requires service.Valid()
    requires TtsService.IsHexToken(token)
    modifies service
    ensures service.Valid()
    ensures (service.Abstract(), r) == SpeechResponse(old(service.Abstract()), request, disk, loadError, synth, saveError, token)
  {
    if request.model !in Config.Models {
      return HttpError(400, "Invalid model");
    }
    if !Downloader.IsModelDownloaded(disk, request.model) {
      return HttpError(400, "Model " + request.model + " is not downloaded. Please download it first.");
    }
    var generated := service.Generate(request.text, request.model, request.speaker, disk, loadError, synth, saveError, token);
    match generated {
      case Err(ValueError(m)) => return HttpError(400, m);
      case Err(RuntimeError(m)) => return HttpError(500, m);
      case Ok(g) => return Success(TTSResponse(true, g.filename, "/api/audio/" + g.filename, request.text, request.model));
    }
  }

  /**
   * The guards of `/api/tts`, in order: an unknown model is 400 "Invalid model",
   * then a model not on disk is 400, both with the service untouched.  For a model
   * on disk, empty or whitespace-only text (which passes request validation) is 400
   * "Text cannot be empty" and changes nothing.
   */
  lemma SpeechGuards(st: TtsService.State, request: TTSRequest, disk: Downloader.Disk, loadError: Option<string>,
                     synth: TtsService.Synthesizer, saveError: Option<string>, token: string)
    ensures request.model !in Config.Models ==>
      SpeechResponse(st, request, disk, loadError, synth, saveError, token) == (st, HttpError(400, "Invalid model"))
    ensures request.model in Config.Models && !Downloader.IsModelDownloaded(disk, request.model) ==>
      SpeechResponse(st, request, disk, loadError, synth, saveError, token)
        == (st, HttpError(400, "Model " + request.model + " is not downloaded. Please download it first."))
    ensures request.model in Config.Models && Downloader.IsModelDownloaded(disk, request.model) && IsBlank(request.text) ==>
      SpeechResponse(st, request, disk, loadError, synth, saveError, token) == (st, HttpError(400, "Text cannot be empty"))
  {
    TtsService.GenerateGuards(st, request.text, request.model, request.speaker, disk, loadError, synth, saveError, token);
  }

  /** Past the guards, every failure of a request for non-empty text is a 500: loading and generation raise only RuntimeErrors. */
  lemma SpeechFailures(st: TtsService.State, request: TTSRequest, disk: Downloader.Disk, loadError: Option<string>,
                       synth: TtsService.Synthesizer, saveError: Option<string>, token: string)
    requires request.model in Config.Models && Downloader.IsModelDownloaded(disk, request.model) && !IsBlank(request.text)
    ensures var r := SpeechResponse(st, request, disk, loadError, synth, saveError, token).1;
      r.HttpError? ==> r.status == 500
  {
    TtsService.GenerateErrorsAreRuntime(st, request.text, request.model, request.speaker, disk, loadError, synth, saveError, token);
  }

  /**
   * A successful speech response echoes the request's text and model, names the
   * file `output_<token>.wav`, points `audio_url` at it, and that name passes the
   * file-name check and is served once the file exists.
   */
  lemma SpeechSuccess(st: TtsService.State, request: TTSRequest, disk: Downloader.Disk, loadError: Option<string>,
                      synth: TtsService.Synthesizer, saveError: Option<string>, token: string, files: set<string>)
    requires TtsService.IsHexToken(token)
    ensures var r := SpeechResponse(st, request, disk, loadError, synth, saveError, token).1;
      r.Success? ==>
        && r.body.success && r.body.text == request.text && r.body.model == request.model
        && r.body.filename == "output_" + token + ".wav"
        && r.body.audioUrl == "/api/audio/" + r.body.filename
        && ValidFilename(r.body.filename)
        && GetAudio(files + {r.body.filename}, r.body.filename) == Success(r.body.filename)
  {
    var r := SpeechResponse(st, request, disk, loadError, synth, saveError, token).1;
    if r.Success? {
      var step := TtsService.GenerateStep(st, request.text, request.model, request.speaker, disk, loadError, synth, saveError, token);
      if !TtsService.EmptyText(request.text) {
        var ready := if request.model in st.engines then st else TtsService.LoadStep(st, request.model, disk, loadError).0;
        if request.model in ready.engines {
          TtsService.ProduceResult(ready.engines[request.model], request.text, request.model, request.speaker, synth, saveError, token);
        }
      }
      GeneratedNameValid(token);
    }
  }

  // ---------------------------------------------------------------------------
  // Audio files

  /** Whether `..` occurs in a name. */
  predicate HasDotDot(name: string) {
    exists i | 0 <= i < |name| - 1 :: name[i] == '.' && name[i + 1] == '.'
  }

  /** The path-traversal check: `not (".." in filename or "/" in filename)`. */
  predicate ValidFilename(name: string) {
    !HasDotDot(name) && '/' !in name
  }

  /**
   * An accepted name is at most one path segment and never `..`. So `OUTPUT_DIR / name`,
   * even after the operating system follows its `..` segments, is the entry `name` directly
   * inside the output directory, or the output directory itself for the names `""` and `.`.
   */
  lemma AcceptedNameStaysInOutputDir(name: string)
    requires ValidFilename(name)
    ensures name != ".." && forall i | 0 <= i < |name| :: name[i] != '/'
    ensures name != "" && name != "." ==>
      Config.Normalize(Config.Child(Config.OutputDir, name)) == Config.Child(Config.OutputDir, name) &&
      Config.Parent(Config.Child(Config.OutputDir, name)) == Config.OutputDir &&
      Config.Child(Config.OutputDir, name) != Config.OutputDir
    ensures name == "" || name == "." ==> Config.Child(Config.OutputDir, name) == Config.OutputDir
  {
    if |name| == 2 {
      assert !(name[0] == '.' && name[1] == '.');
    }
    Config.ParentOfChild(Config.OutputDir, name);
    var p := Config.Child(Config.OutputDir, name);
    if name != "" && name != "." {
      assert p.segments == ["output", name];
      Config.ResolveWithoutParent(p.absolute, [], p.segments);
    }
  }

  /**
   * Without the check, `..` leads out of the output directory: `../<name>` names
   * `BASE_DIR / <name>`, outside the output directory. The check refuses it.
   */
  lemma DotDotNameEscapes(name: string)
    requires '/' !in name && name != "" && name != "." && name != ".."
    ensures !ValidFilename("../" + name)
    ensures Config.Normalize(Config.Child(Config.OutputDir, "../" + name)) == Config.Child(Config.BaseDir, name)
    ensures Config.Parent(Config.Normalize(Config.Child(Config.OutputDir, "../" + name))) != Config.OutputDir
  {
    var path := "../" + name;
    assert path[0] == '.' && path[1] == '.';
    Config.ParentOfChild(Config.BaseDir, name);
    assert Config.Segments(path) == ["..", name] by {
      Config.SegmentsAfterSlash("..", name);
      assert ".." + "/" + name == path;
      Config.SegmentsOfPlain(name);
    }
    var segments := ["output", "..", name];
    assert Config.Child(Config.OutputDir, path) == Config.Path(false, segments);
    assert Config.Resolve(false, [], segments) == Config.Resolve(false, ["output"], segments[1..]);
    assert Config.Resolve(false, ["output"], segments[1..]) == Config.Resolve(false, [], [name]);
  }

  /**
   * Without the check, a name starting with `/` replaces the output directory altogether:
   * `OUTPUT_DIR / "/<rest>"` is the absolute path of `rest`'s segments. The check refuses it.
   */
  lemma AbsoluteNameEscapes(rest: string)
    ensures !ValidFilename("/" + rest)
    ensures Config.Child(Config.OutputDir, "/" + rest) == Config.Path(true, Config.Segments(rest))
    ensures Config.Child(Config.OutputDir, "/" + rest) == Config.Child(Config.BaseDir, "/" + rest)
  {
    var path := "/" + rest;
    assert path[0] == '/';
    Config.SegmentsAfterSlash("", rest);
    assert "" + "/" + rest == path;
  }

  /** Names the service generates always pass the check. */
  lemma GeneratedNameValid(token: string)
    requires TtsService.IsHexToken(token)
    ensures ValidFilename("output_" + token + ".wav")
  {
    var name := "output_" + token + ".wav";
    assert forall i | 7 <= i < 15 :: name[i] == token[i - 7];
    forall i | 0 <= i < |name| - 1 ensures !(name[i] == '.' && name[i + 1] == '.') {
      if 7 <= i < 15 {
        assert token[i - 7] in "0123456789abcdef";
      }
    }
    assert forall i | 0 <= i < |name| :: name[i] != '/' by {
      forall i | 0 <= i < |name| ensures name[i] != '/' {
        if 7 <= i < 15 {
          assert token[i - 7] in "0123456789abcdef";
        }
      }
    }
  }

  /** `get_audio`, given the names of the files in the output directory: the name of the file served. */
  function GetAudio(files: set<string>, name: string): (r: Response<string>)
    ensures r.Success? <==> ValidFilename(name) && name in files
    ensures r.Success? ==> r.body == name
    ensures !ValidFilename(name) ==> r == HttpError(400, "Invalid filename")
    ensures ValidFilename(name) && name !in files ==> r == HttpError(404, "Audio file not found")
  {
    if HasDotDot(name) || '/' in name then HttpError(400, "Invalid filename")
    else if name !in files then HttpError(404, "Audio file not found")
    else Success(name)
  }

  /** `delete_audio`, given the names of the files in the output directory: the files left and the answer. */
  function DeleteAudio(files: set<string>, name: string): (set<string>, Response<Outcome>) {
    if HasDotDot(name) || '/' in name then (files, HttpError(400, "Invalid filename"))
    else if name in files then (files - {name}, Success(Outcome(true, "File deleted")))
    else (files, Success(Outcome(false, "File not found")))
  }

  /**
   * Deleting refuses a rejected name without touching any file; otherwise it removes
   * exactly the named file when it exists, and reports `success: false` rather than
   * an error when it does not, so a second delete of the same name reports false.
   */
  lemma DeleteAudioShape(files: set<string>, name: string)
    ensures !ValidFilename(name) ==> DeleteAudio(files, name) == (files, HttpError(400, "Invalid filename"))
    ensures ValidFilename(name) ==>
      var out := DeleteAudio(files, name);
      && out.0 == files - {name}
      && out.1 == Success(Outcome(name in files, if name in files then "File deleted" else "File not found"))
    ensures ValidFilename(name) ==>
      DeleteAudio(DeleteAudio(files, name).0, name).1 == Success(Outcome(false, "File not found"))
  {
  }
}
