# KaniTTS backend, modelled in Dafny

This project models the core of the KaniTTS web backend: a FastAPI service that
downloads text-to-speech models from Hugging Face, loads them into memory and
turns text into speech. Long text is cut into chunks, each chunk is rendered
separately, and the audio is joined with short pauses between the chunks.

The modules follow the backend's files:

- `config.dfy` (`Config`): the catalog. It holds `MODELS`, `SPEAKERS`,
  `SAMPLE_RATE` and the directories, as paths given by their segments.
- `text.dfy` (`Text`) and `chunker.dfy` (`Chunker`): `split_into_sentences`
  and the Python string operations it is built from: `str.split()`,
  `" ".join`, `str.strip()`, and the two look-behind `re.split` calls.
  `Chunker.SplitIntoSentences` keeps the source's two nested loops. It is
  proved against the function `Chunker.Chunks`, and the lemmas prove what
  that function returns: the chunks join back into the normalised text; they
  respect sentence boundaries; and a long sentence is packed greedily. The
  packing is checked against an independent predicate, `GreedyGrouping`.
- `downloader.dfy` (`Downloader`) covers four things:
  - `is_model_downloaded`, over an abstract directory listing;
  - the status records;
  - the `DownloadProgress` class, whose fields are updated in place;
  - the sequence of events `download_model_with_progress` yields. The method
    drives a `DownloadProgress` object through the source's steps. It is
    proved to yield the events of `DownloadTrace`, and the lemmas prove that
    trace's shape.
- `event_stream.dfy` (`EventStream`): the `data: ...\n\n` framing of those
  events. A lemma proves that a client parsing the concatenated strings the
  generator yields reads back every payload. The parsing follows section 9.2.6 of the WHATWG HTML Living
  Standard ("Interpreting an event stream").
- `tts_service.dfy` (`TtsService`): the `TTSService` class, holding the
  loaded models in insertion order and the current model key. Every
  state-changing method is proved equal to a step function on a value-level
  `State`. The lemmas prove that each step keeps the service's invariant,
  plus the outcome of every guard and error path. This module also models
  the speaker fallback, the per-chunk loop and the joining of the audio with
  150 ms pauses.
- `api.dfy` (`Api`): the HTTP endpoints of `main.py`, modelled as the
  decisions they make:
  - which guard answers first, with which status code and detail;
  - the model-list merge;
  - the `TTSRequest` text bounds;
  - the path-traversal check on audio file names.

The environment is turned into inputs:

- the directory listing (`Disk`) and the files in the output directory;
- whether `repo_info` fails, and the file list it returns;
- what each directory poll sees, and how `snapshot_download` ends;
- whether constructing a KaniTTS model fails (`loadError`);
- what the model renders for each chunk (`synth`);
- whether saving the WAV file fails (`saveError`);
- the eight hex digits taken from a fresh UUID (`token`);
- the JSON encoder (`encode`).

## Model

| member | source | states |
|---|---|---|
| Chunker.SplitIntoSentences | backend/tts_service.py:20-55 | The source's loops produce `Chunks(text)`. That list is never empty, and it is `[""]` exactly when the text is blank. Its chunks joined with spaces give the whitespace-normalised text. For non-blank text every chunk is non-empty, normalised, and crosses no sentence boundary. Every chunk is at most 200 characters or holds no clause boundary. |
| Chunker.ChunksNeverEmpty | backend/tts_service.py:55 | At least one chunk comes back; blank text gives exactly `[""]` (the normalised text). |
| Chunker.ChunksRoundTrip | backend/tts_service.py:26-55 | `" ".join(chunks)` equals `" ".join(text.split())`: no word is lost, duplicated or reordered. |
| Chunker.ChunksWellFormed | backend/tts_service.py:26-46 | For non-blank text, each chunk is non-empty and already normalised, and no space in it follows `.`, `!` or `?`. |
| Chunker.ChunksSizeBound | backend/tts_service.py:38-51 | A chunk longer than `MAX_CHUNK_CHARS` is a single clause that could not be cut further: it holds no space after `,`, `;`, `–` or `—`. |
| Chunker.ChunksFollowSentences | backend/tts_service.py:37-53 | The chunks are the per-sentence chunk lists, concatenated in sentence order. A short sentence is one chunk. A long sentence's chunks are the greedy grouping of its clauses, each group joined with spaces. |
| Chunker.SentencesShape | backend/tts_service.py:26-33 | Blank text has no sentences. Otherwise the sentences join back into the normalised text, each is non-empty, normalised and free of sentence breaks, and every sentence but the last ends in `.`, `!` or `?`. |
| Chunker.ChunkSentenceShape | backend/tts_service.py:37-53 | A sentence's chunks are non-empty and normalised and join back into the sentence. Each chunk is within the limit or is one of the sentence's clauses. |
| Chunker.ChunkSentenceGreedy | backend/tts_service.py:42-53 | For a long sentence, the packing loop's output is the greedy grouping of its clauses. The groups cover the clauses in order. A group of two or more clauses fits in 200 characters. A group is closed only when the next clause, plus a separating space, would not fit. |
| Chunker.PackIsGrouping | backend/tts_service.py:43-53 | The string-building packing loop equals grouping the clauses and joining each group: the `strip()` in the loop never changes a chunk. |
| Chunker.GroupFromGreedy | backend/tts_service.py:44-51 | The grouping scan satisfies `GreedyGrouping`, and its first group starts with the clause under construction. |
| Chunker.ChunkAllRoundTrip | backend/tts_service.py:36-53 | For non-empty normalised sentences, the chunks join back into the sentences joined with spaces, and there are no chunks exactly when there are no sentences. |
| Chunker.StripFilterKeeps | backend/tts_service.py:33 | On non-empty normalised pieces the strip-and-filter comprehension changes nothing. |
| Text.NormalizeShape | backend/tts_service.py:26 | `" ".join(s.split())` is normalised (single plain spaces, none at either end), and it is empty exactly when `s` is blank. |
| Text.StripBlank | backend/tts_service.py:135 | `s.strip()` is empty exactly when every character of `s` is whitespace. |
| Text.StripNormalized | backend/tts_service.py:33 | `strip()` leaves normalised text unchanged. |
| Text.SplitAfterShape | backend/tts_service.py:30 | The look-behind split never loses text: its pieces joined with spaces give the input back. No piece holds a split point, and every piece but the last ends in a mark. On normalised non-empty text every piece is non-empty and normalised. |
| Text.SplitFromRoundTrip | backend/tts_service.py:30 | The split scan yields at least one piece, and its pieces joined with spaces rebuild what was scanned. |
| Text.NormalizedPair | backend/tts_service.py:46 | Joining two strings with one space is normalised exactly when both are non-empty and normalised. |
| Text.WordsFromShape | backend/tts_service.py:26 | `str.split()` yields non-empty runs with no whitespace, and nothing exactly when the text is blank. |
| TtsService.DefaultSpeakersListed | backend/tts_service.py:62-65 | `DEFAULT_SPEAKERS` covers exactly the catalog models, and each default is a speaker the catalog lists for that model. |
| TtsService.SpeakerForCatalog | backend/tts_service.py:146 | For a catalog model a speaker is always chosen. A non-empty requested speaker is used as given. A missing or empty one falls back to the default, which is a speaker the catalog lists for that model. |
| TtsService.SilenceLength | backend/tts_service.py:165 | The pause is `int(22050 * 0.15)` = 3307 samples, all zero. |
| TtsService.CombineWithSilence | backend/tts_service.py:160-171 | The joining loop (one audio taken as is, several interleaved with pauses) concatenates `Parts(audios)`, and that equals `Interleave(audios)`. |
| TtsService.PartsShape | backend/tts_service.py:166-170 | `n` chunk audios give `2n - 1` parts: audio `i` at position `2i`, and a pause at every odd position, so there is no pause after the last audio. |
| TtsService.InterleaveIsConcat | backend/tts_service.py:161-171 | The recursive reference definition of the combined audio equals the concatenation of the parts the loop builds. |
| TtsService.InterleaveLength | backend/tts_service.py:161-171 | The combined audio is as long as all chunk audios plus 3307 samples per gap. |
| TtsService.InterleavePlacement | backend/tts_service.py:161-171 | Chunk `k`'s audio appears unchanged at its offset in the combined audio. |
| TtsService.InterleavePauseAfter | backend/tts_service.py:164-170 | Every chunk's audio but the last is followed by a full 3307-sample pause. |
| TtsService.RenderChunks | backend/tts_service.py:154-158 | The loop calls the model on every chunk in order. It returns `Render`'s result: all the audios, or the error of the first chunk that failed. |
| TtsService.RenderShape | backend/tts_service.py:154-158 | Rendering succeeds exactly when every chunk does; then the audios are the chunks' renderings in order. A failure carries the first failing chunk's error, and every earlier chunk succeeded. |
| TtsService.RenderFailsEarly | backend/tts_service.py:155-157 | Once a prefix of the chunks fails, the later chunks do not matter: the result is that prefix's error. |
| TtsService.TTSService.constructor | backend/tts_service.py:67-69 | A new service has no model loaded and no current model, and satisfies the invariant. |
| TtsService.TTSService.LoadModel | backend/tts_service.py:79-110 | The new state and the result are `LoadStep` of the old state, and the invariant is kept. |
| TtsService.LoadOutcome | backend/tts_service.py:79-110 | Success happens exactly for a catalog model on disk that is loaded already or constructs without error. Then the model is loaded and current, and no other model changes. The three failures (unknown model, not downloaded, construction error) raise the source's exception with the source's message and leave the state unchanged. |
| TtsService.LoadKeepsWellFormed | backend/tts_service.py:88-103 | Loading keeps the invariant: keys listed once, each from the catalog with its own local path, and the current model loaded. |
| TtsService.LoadIdempotent | backend/tts_service.py:87-90 | After a successful load, loading the same model again succeeds and changes nothing, whatever construction would do. |
| TtsService.TTSService.UnloadModel | backend/tts_service.py:112-119 | The new state and the result are `UnloadStep` of the old state, and the invariant is kept. |
| TtsService.UnloadOutcome | backend/tts_service.py:112-119 | The result says whether the model was loaded, and afterwards it is not. The other models stay, in their order. The current key is cleared only when it is the unloaded one. Unloading a model that is not loaded returns False and changes nothing. |
| TtsService.UnloadKeepsWellFormed | backend/tts_service.py:112-119 | Unloading keeps the invariant. |
| TtsService.UnloadUndoesLoad | backend/tts_service.py:102-103 | Unloading a model that was just loaded gives back the previous loaded models, in the same order, with no current model. |
| TtsService.WithoutShape | backend/tts_service.py:115 | Deleting a key from the key order keeps exactly the other keys, still distinct, and deleting a missing key changes nothing. |
| TtsService.WithoutLast | backend/tts_service.py:115 | Deleting the key inserted last gives the key order from before the insertion. |
| TtsService.TTSService.Generate | backend/tts_service.py:121-188 | The new state and the result are `GenerateStep` of the old state, and the invariant is kept. |
| TtsService.GenerateKeepsWellFormed | backend/tts_service.py:121-188 | Generation keeps the invariant. |
| TtsService.GenerateGuards | backend/tts_service.py:135-142 | Empty or whitespace-only text raises `ValueError("Text cannot be empty")` before anything else, with the state unchanged. A request never unloads or replaces a model. A request for a loaded model leaves the state as it was. A failed load raises the loader's exception. |
| TtsService.GenerateResult | backend/tts_service.py:138-144 | For non-empty text whose model is loaded or loads, generation runs on the engine loaded from that model's directory. A success implies non-empty text and a loaded catalog model. |
| TtsService.GenerateErrorsAreRuntime | backend/tts_service.py:135-188 | For a catalog model on disk and non-empty text, every failure is a `RuntimeError`. |
| TtsService.Synthesize | backend/tts_service.py:144-188 | The body of the `try` block returns `Produce`'s result. |
| TtsService.ProduceResult | backend/tts_service.py:144-188 | Generation succeeds exactly when every chunk renders and the file saves. The audio is then the chunk audios in order with pauses between them, and the file is `output_<token>.wav`. A failure is `RuntimeError("Failed to generate audio: ...")` carrying the first failing chunk's message, or the save error. |
| TtsService.ProduceErrorIsRuntime | backend/tts_service.py:186-188 | Every exception in the generation body is re-raised as a `RuntimeError`. |
| TtsService.TTSService.GetLoadedModels | backend/tts_service.py:190-192 | The loaded keys, each once, all catalog keys: exactly the keys of the model dictionary. |
| TtsService.TTSService.IsModelLoaded | backend/tts_service.py:194-196 | True exactly when the key is among the loaded models, and then it is a catalog key. |
| Downloader.DownloadProgress.constructor | backend/downloader.py:18-26 | A new progress object has the key, zero sizes and counts, no current file, status "pending" and no error. |
| Downloader.Percent | backend/downloader.py:28-32 | The percentage is 0 when the total is 0, never more than 100, and non-negative. It is exactly 100 once the download reaches the total, and below that it is `100 * downloaded / total`. |
| Downloader.DownloadProgress.ProgressPercent | backend/downloader.py:28-32 | The object's percentage is 0 for a total of 0 and at most 100. It is non-negative when the counters are, and exactly 100 once the download reaches the total. |
| Downloader.DownloadProgress.ToDict | backend/downloader.py:34-46 | The dictionary copies every counter and the status and error, takes the name from the catalog, and carries the object's percentage. |
| Downloader.DownloadedIff | backend/downloader.py:49-65 | A model counts as downloaded exactly when it is in the catalog, its directory exists, and the directory holds a `*.safetensors` file, a `config.json` or a `*.bin` file. |
| Downloader.ModelStatusShape | backend/downloader.py:68-82 | An unknown key gets `{"exists": False, "error": "Unknown model"}`. A known key gets its catalog name and repository, and `downloaded`. Its local path is present exactly when the model is downloaded, and it is that model's directory. |
| Downloader.AllModelsStatusShape | backend/downloader.py:85-87 | The table has one entry per catalog key, no key twice, and each entry is that key's status. |
| Downloader.DownloadModelWithProgress | backend/downloader.py:106-199 | Updating one progress object and snapshotting it at every `yield` produces exactly `DownloadTrace`, and that trace is well formed. |
| Downloader.Transfer | backend/downloader.py:141-199 | After `repo_info` succeeds, the object's snapshots are the size event, one event per directory poll and the terminal event. The last snapshot is the object's final `to_dict()`. At the end the object holds the repository's total size and file count, status completed (downloaded size set to the total) or error (the error's message, the last poll's size). Its file count is the last poll's. |
| Downloader.TraceWellFormed | backend/downloader.py:106-199 | Every trace is non-empty. Its last event, and no other, is terminal (completed or error). Every earlier event is "downloading", and none is "pending". |
| Downloader.TraceUnknownKey | backend/downloader.py:109-111 | An unknown key yields one event, an error with "Unknown model". |
| Downloader.TraceAlreadyDownloaded | backend/downloader.py:116-122 | A model already on disk yields one completed event with sizes 1 of 1, so 100 percent, and no error. |
| Downloader.TraceOfFreshDownload | backend/downloader.py:124-199 | A fresh download starts with a "downloading" event whose counters are all zero. If `repo_info` fails, the error event follows it at once and ends the trace. Otherwise the trace holds three events plus one per poll. |
| Downloader.TraceProgressEvents | backend/downloader.py:141-173 | After `repo_info` succeeds, the second event is "downloading" with the file count and the total size (missing sizes count as 0). Then one "downloading" event per poll reports that poll's size and file count against the same total. |
| Downloader.TraceTerminalEvent | backend/downloader.py:175-199 | A finished download's last event is completed, with the downloaded size equal to the total and 100 percent (0 when the total is 0). A failed download's last event is an error with the error's message. |
| Downloader.TraceErrorMessage | backend/downloader.py:187-199 | Whether `repo_info` or the transfer fails, the stream ends in an error event. Its message is the authentication text for a gated repository, "Model repository not found." for a missing one, and otherwise the exception's text. |
| EventStream.StreamRoundTrip | backend/downloader.py:121-199 | A client parsing the concatenation of the yielded `data: <payload>\n\n` strings reads back every payload in order, unchanged, as long as no payload holds a line break. |
| EventStream.DataLine | backend/downloader.py:125 | The `data:` line of a frame has field name `data` and value exactly the payload. |
| EventStream.ColonAt | backend/downloader.py:125 | The field of a line ends at its first colon. |
| Config.SegmentsOfPlain | backend/config.py:5-6 | pathlib reads a string without `/` as that one segment, or as no segment when it is empty or `.`. |
| Config.SegmentsAfterSlash | backend/main.py:201 | pathlib reads the text before the first `/` as the first segment (none when it is empty or `.`), and the rest after it. |
| Config.ParentOfChild | backend/config.py:5-6 | For a name without `/` that is neither empty nor `.`, `dir / name` appends that one segment: its parent is `dir`, and it is not `dir` itself. For `""` and `.`, `dir / name` is `dir`. |
| Config.DirectoriesJoined | backend/config.py:4-6 | `MODELS_DIR` and `OUTPUT_DIR` are `BASE_DIR / "models"` and `BASE_DIR / "output"`, and each model's local path is `MODELS_DIR / <directory name>`, with the paths pathlib builds. |
| Config.CatalogKeys | backend/config.py:14-44 | `MODELS` and `SPEAKERS` have exactly the keys `en` and `de`. `ModelOrder`, the order the dictionary lists them in, names each of them exactly once. |
| Config.ModelsDistinct | backend/config.py:14-25 | The two models have different repositories and different directories, each directly inside `MODELS_DIR`. |
| Config.SpeakersWellFormed | backend/config.py:30-44 | Within each model's speaker list the ids are unique, and every gender is "female" or "male". |
| Api.ListModels | backend/main.py:85-96 | One entry per catalog model, in catalog order. Each entry is that model's status with `loaded` equal to whether the service holds the model. |
| Api.GetModel | backend/main.py:100-108 | An unknown key, and only an unknown key, is 404 "Model not found". Otherwise the answer is exactly `get_model_status(key)`, the name, repository, `downloaded` flag and local path (present exactly when downloaded), plus `loaded`, true exactly when the service holds the model. |
| Api.GetSpeakersShape | backend/main.py:112-118 | An unknown key is 404. A catalog model gets its own speaker list, never the empty fallback, and that list has at least two speakers. |
| Api.DownloadStream | backend/main.py:122-130 | An unknown key is 404 with no stream. For a known key, a client parsing the concatenation of the strings the generator yields reads back one payload per event of the download trace, in order, and the trace is well formed. |
| Api.LoadModel | backend/main.py:134-146 | The service's new state and the answer are `LoadResponse` of the old state, and the invariant is kept. |
| Api.LoadResponseShape | backend/main.py:134-146 | An unknown key is 404 and a model not on disk is 400, both with the service untouched. Past those guards, failure happens exactly when construction fails, as a 500 carrying the loader's message. Success leaves the model loaded and current. |
| Api.UnloadModel | backend/main.py:150-156 | The service's new state and the answer are `UnloadResponse` of the old state, and the invariant is kept. |
| Api.UnloadResponseShape | backend/main.py:150-156 | An unknown key is 404 and changes nothing. Any catalog model, loaded or not, gets the success answer and is unloaded afterwards. |
| Api.MakeRequest | backend/main.py:53-56 | A request is accepted exactly when its text has 1 to 5000 characters. The text and speaker are kept, and the model defaults to "en". |
| Api.GenerateSpeech | backend/main.py:160-191 | The service's new state and the answer are `SpeechResponse` of the old state, and the invariant is kept. |
| Api.SpeechGuards | backend/main.py:162-169 | An unknown model is 400 "Invalid model". Then a model not on disk is 400 with the download hint. Then whitespace-only text (which passes validation) is 400 "Text cannot be empty". None of them touches the service. |
| Api.SpeechFailures | backend/main.py:188-191 | Past the guards, every failure of a request for non-empty text is a 500. |
| Api.SpeechSuccess | backend/main.py:180-186 | A success echoes the request's text and model and names the file `output_<token>.wav`. `audio_url` points at that file. The name passes the file-name check, and the audio endpoint serves it once it exists. |
| Api.AcceptedNameStaysInOutputDir | backend/main.py:198-201 | A name that passes the check is not `..` and has no `/`. Unless it is empty or `.`, `OUTPUT_DIR / name` is the single entry `name` directly inside the output directory, and following its `..` segments changes nothing. For `""` and `.` the path is the output directory itself. |
| Api.DotDotNameEscapes | backend/main.py:198-201 | Without the check, `OUTPUT_DIR / "../<name>"` leads to `BASE_DIR / <name>`, outside the output directory. The check refuses such a name. |
| Api.AbsoluteNameEscapes | backend/main.py:198-201 | Without the check, `OUTPUT_DIR / "/<rest>"` is an absolute path that does not depend on the output directory at all. The check refuses such a name. |
| Api.GeneratedNameValid | backend/tts_service.py:174 | Every file name the service generates passes the path-traversal check. |
| Api.GetAudio | backend/main.py:195-210 | A name is served exactly when it passes the check and the file exists. A rejected name is 400 and a missing file is 404. |
| Api.DeleteAudioShape | backend/main.py:214-225 | A rejected name is 400 and no file is touched. Otherwise exactly the named file is removed, and the answer says whether it existed, so a second delete reports `success: false`. |

## Left out

- Model inference: the KaniTTS model is an input function from a chunk and a speaker to an audio or an exception message. So are the library import and the constructor's failure (`loadError`). `temperature` and `top_p` are not passed to the model, as in the source, and their request bounds (0.1 to 2.0 and 0.1 to 1.0) are not modelled.
- `_get_device`: it is never called by the code modelled.
- Floating point: audio samples and the percentage are `real`; sizes and counts stay integers, as in the source. The `round(..., 1)` in `to_dict` is left out, so the percentage is exact. `float32` and WAV encoding are not modelled.
- WAV files: the bytes `generate` reads back after saving, and the file served by `FileResponse`, are not modelled. `generate` returns the audio samples and the file name.
- The file system: directory listings, sizes, file counts and the output directory's files are inputs. `mkdir`, `os.remove` and `Path.exists` are modelled only through those inputs. `str(path)` is not modelled; paths stay as segments.
- The network and threads: `repo_info`, `snapshot_download`, the executor, the `asyncio.sleep` delays and the polling times are left out. What each poll sees and how the download ends are inputs. The number of polls is an input, where the source polls once per second until the download finishes.
- `json.dumps`: it is the `encode` input, required to write each payload on one line (as `json.dumps` does by default).
- `EventSourceResponse` re-framing: the stream lemmas are about the strings the generator yields, not the bytes sent to the browser.
- FastAPI routing, pydantic error bodies, CORS, `uvicorn` and the root health endpoint are left out. Validation failures are the `ValidationError` values `TextTooShort` and `TextTooLong`.
- Logging, `print` and the lifespan messages are left out.
- `uuid.uuid4()` is left out: `Generate` takes the eight hex digits as a `token` input.
- The global `tts_service` singleton: the endpoints take the service object as a parameter.
- TtsService.TTSService.Generate: requires `token` to be eight lower-case hex digits, which is what `uuid4().hex[:8]` always yields.
- Api.GenerateSpeech: requires the same token condition, for the same reason.
- TtsService.CombineWithSilence: requires at least one audio. The source calls it only on the audios of a chunk list that is never empty (`Chunker.ChunksNeverEmpty`), so `np.concatenate` on an empty list cannot happen.
- Text.SplitAfter: models `re.split(r'(?<=[...])\s+', t)` only on text whose whitespace runs are single plain spaces. The source applies it only to normalised text, where `\s+` matches exactly one space.
- EventStream.StreamRoundTrip: requires payloads without line breaks, which is what the encoder produces; a CR inside a payload is not modelled.
- Error-hierarchy ordering: `GatedRepoError` is a subclass of `RepositoryNotFoundError`. The source's `except` order already tells them apart, so the model keeps them as separate error kinds.
- A file named `.` or the empty name: the path check lets them through, and `OUTPUT_DIR / name` is then the output directory itself (`Api.AcceptedNameStaysInOutputDir`). `GetAudio` and `DeleteAudio` treat such a name as an ordinary name in the file set.
- Paths: pathlib keeps a leading `//` as two slashes; the model reads every leading `/` run as the root. `Config.Normalize` follows `..` segments as `os.path.normpath` does, without symbolic links.
