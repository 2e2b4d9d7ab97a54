/**
 * The speech service: the set of loaded models and the current one, loading and
 * unloading a model, and the control flow of a generation request (empty-text
 * guard, loading on demand, speaker choice, one rendering per chunk, and the
 * chunks joined with 150 ms of silence between them).
 */
module TtsService {
  import opened Common
  import opened Text
  import Config
  import Chunker
  import Downloader

  // ---------------------------------------------------------------------------
  // Speakers

  /** `DEFAULT_SPEAKERS`: the speaker used when a request names none. */
  const DefaultSpeakers: map<string, string> := map["en" := "jenny", "de" := "thorsten"]

  /** Whether `id` is one of the speakers the catalog lists for model `key`. */
  predicate ListedSpeaker(key: string, id: string)
    requires key in Config.Speakers
  {
    exists i | 0 <= i < |Config.Speakers[key]| :: Config.Speakers[key][i].id == id
  }

  /** Every model has a default speaker, and that speaker is one the catalog lists for it. */
  lemma DefaultSpeakersListed()
    ensures DefaultSpeakers.Keys == Config.Models.Keys
    ensures forall key | key in DefaultSpeakers :: key in Config.Speakers && ListedSpeaker(key, DefaultSpeakers[key])
  {
    Config.CatalogKeys();
    assert Config.Speakers["en"][0].id == "jenny";
    assert Config.Speakers["de"][0].id == "thorsten";
  }

  /** `speaker or DEFAULT_SPEAKERS.get(model_key)`: a missing or empty speaker falls back to the default. */
  function SpeakerFor(requested: Option<string>, key: string): Option<string> {
    if requested.Some? && requested.value != "" then requested
    else if key in DefaultSpeakers then Some(DefaultSpeakers[key])
    else None
  }

  /**
   * For a catalog model a speaker is always chosen: the requested one when the
   * request names one, and otherwise a speaker the catalog lists for that model.
   */
  lemma SpeakerForCatalog(requested: Option<string>, key: string)
    requires key in Config.Models
    ensures SpeakerFor(requested, key).Some?
    ensures requested.Some? && requested.value != "" ==> SpeakerFor(requested, key) == requested
    ensures requested.None? || requested.value == "" ==>
      key in Config.Speakers && ListedSpeaker(key, SpeakerFor(requested, key).value)
  {
    DefaultSpeakersListed();
  }

  // ---------------------------------------------------------------------------
  // Audio

  /** `int(SAMPLE_RATE * 0.15)`: the length of the pause between two chunks, in samples. */
  const SilenceSamples: nat := Config.SampleRate * 15 / 100

  /** The pause between two chunks: that many zero samples. */
  function Silence(): seq<real> {
    seq(SilenceSamples, _ => 0.0)
  }

  /** The audios of the chunks, in order, with a pause between each two and none at either end. */
  function Interleave(audios: seq<seq<real>>): seq<real>
    decreases |audios|
  {
    if |audios| == 0 then []
    else if |audios| == 1 then audios[0]
    else Interleave(audios[..|audios| - 1]) + Silence() + audios[|audios| - 1]
  }

  /** The total number of samples of the audios. */
  function TotalLength(audios: seq<seq<real>>): nat
    decreases |audios|
  {
    if audios == [] then 0 else TotalLength(audios[..|audios| - 1]) + |audios[|audios| - 1]|
  }

  /** Where the `k`-th audio starts in the combined audio. */
  function Offset(audios: seq<seq<real>>, k: nat): nat
    requires k <= |audios|
  {
    TotalLength(audios[..k]) + k * SilenceSamples
  }

  /** The pause is 3307 samples long. */
  lemma SilenceLength()
    ensures SilenceSamples == 3307 && |Silence()| == 3307
    ensures forall i | 0 <= i < |Silence()| :: Silence()[i] == 0.0
  {
  }

  /** The combined audio is as long as all the chunks' audios plus one pause between each two. */
  lemma {:induction false} InterleaveLength(audios: seq<seq<real>>)
    requires |audios| >= 1
    ensures |Interleave(audios)| == TotalLength(audios) + (|audios| - 1) * SilenceSamples
  {
    if |audios| > 1 {
      var front := audios[..|audios| - 1];
      InterleaveLength(front);
    } else {
      assert audios[..0] == [];
    }
  }

  /** A slice that lies inside the left operand of a concatenation. */
  lemma SliceLeft(a: seq<real>, b: seq<real>, i: nat, j: nat)
    requires i <= j <= |a|
    ensures (a + b)[i..j] == a[i..j]
  {
  }

  /** A slice that lies inside the right operand of a concatenation. */
  lemma SliceRight(a: seq<real>, b: seq<real>, i: nat, j: nat)
    requires |a| <= i <= j <= |a| + |b|
    ensures (a + b)[i..j] == b[i - |a|..j - |a|]
  {
  }

  /** The `k`-th chunk's audio appears unchanged at its offset in the combined audio. */
  lemma {:induction false} InterleavePlacement(audios: seq<seq<real>>, k: nat)
    requires k < |audios|
    ensures Offset(audios, k) + |audios[k]| <= |Interleave(audios)|
    ensures Interleave(audios)[Offset(audios, k)..Offset(audios, k) + |audios[k]|] == audios[k]
    decreases |audios|
  {
    var n := |audios|;
    if n == 1 {
      assert audios[..0] == [];
      assert Interleave(audios) == audios[0];
    } else {
      var front := audios[..n - 1];
      var pre := Interleave(front);
      var last := audios[n - 1];
      InterleaveLength(front);
      assert Interleave(audios) == pre + Silence() + last;
      if k < n - 1 {
        InterleavePlacement(front, k);
        assert front[..k] == audios[..k];
        var o := Offset(audios, k);
        assert Offset(front, k) == o;
        assert pre + Silence() + last == pre + (Silence() + last);
        SliceLeft(pre, Silence() + last, o, o + |audios[k]|);
      } else {
        InterleaveLastPlacement(audios);
      }
    }
  }

  /** The last chunk's audio ends the combined audio, right after the last pause. */
  lemma InterleaveLastPlacement(audios: seq<seq<real>>)
    requires |audios| >= 2
    ensures Offset(audios, |audios| - 1) + |audios[|audios| - 1]| <= |Interleave(audios)|
    ensures Interleave(audios)[Offset(audios, |audios| - 1)..Offset(audios, |audios| - 1) + |audios[|audios| - 1]|]
      == audios[|audios| - 1]
  {
    var n := |audios|;
    var front := audios[..n - 1];
    var pre := Interleave(front);
    var last := audios[n - 1];
    InterleaveLength(front);
    assert Interleave(audios) == pre + Silence() + last;
    var o := Offset(audios, n - 1);
    assert o == TotalLength(front) + (n - 1) * SilenceSamples;
    assert (n - 1) * SilenceSamples == (n - 2) * SilenceSamples + SilenceSamples;
    assert o == |pre| + SilenceSamples;
    SliceRight(pre + Silence(), last, o, o + |last|);
    assert last[0..|last|] == last;
  }

  /** Every chunk's audio but the last is followed by a full pause. */
  lemma {:induction false} InterleavePauseAfter(audios: seq<seq<real>>, k: nat)
    requires k < |audios| - 1
    ensures Offset(audios, k) + |audios[k]| + SilenceSamples <= |Interleave(audios)|
    ensures Interleave(audios)[Offset(audios, k) + |audios[k]|..Offset(audios, k) + |audios[k]| + SilenceSamples] == Silence()
    decreases |audios|
  {
    var n := |audios|;
    var front := audios[..n - 1];
    var pre := Interleave(front);
    var last := audios[n - 1];
    InterleaveLength(front);
    assert Interleave(audios) == pre + Silence() + last;
    assert front[..k] == audios[..k];
    var o := Offset(audios, k);
    assert Offset(front, k) == o;
    var e := o + |audios[k]|;
    if k < n - 2 {
      InterleavePauseAfter(front, k);
      assert pre + Silence() + last == pre + (Silence() + last);
      SliceLeft(pre, Silence() + last, e, e + SilenceSamples);
    } else {
      assert TotalLength(front) == TotalLength(audios[..k]) + |audios[k]| by {
        assert front[..n - 2] == audios[..k];
      }
      assert e == |pre|;
      SliceLeft(pre + Silence(), last, e, e + SilenceSamples);
      SliceRight(pre, Silence(), e, e + SilenceSamples);
      assert Silence()[0..SilenceSamples] == Silence();
    }
  }

  /** `combined_parts`: each chunk's audio, with the pause between each two. */
  function Parts(audios: seq<seq<real>>): seq<seq<real>>
    decreases |audios|
  {
    if |audios| <= 1 then audios
    else Parts(audios[..|audios| - 1]) + [Silence(), audios[|audios| - 1]]
  }

  /** `np.concatenate`. */
  function Concat(parts: seq<seq<real>>): seq<real>
    decreases |parts|
  {
    if parts == [] then [] else Concat(parts[..|parts| - 1]) + parts[|parts| - 1]
  }

  /** Joining the parts gives the combined audio: the pauses fall exactly between the chunks. */
  lemma {:induction false} InterleaveIsConcat(audios: seq<seq<real>>)
    requires |audios| >= 1
    ensures Interleave(audios) == Concat(Parts(audios))
    decreases |audios|
  {
    var n := |audios|;
    if n == 1 {
      assert Parts(audios) == [audios[0]];
      assert Parts(audios)[..0] == [];
    } else {
      var front := audios[..n - 1];
      InterleaveIsConcat(front);
      var pf := Parts(front);
      var ps := pf + [Silence(), audios[n - 1]];
      assert ps[..|ps| - 1] == pf + [Silence()];
      assert (pf + [Silence()])[..|pf|] == pf;
      assert Concat(ps) == Concat(pf) + Silence() + audios[n - 1];
    }
  }

  /**
   * The loop that builds `combined_parts` and joins them: a single audio is used
   * as it is; otherwise each is followed by the pause, except the last.  The list
   * is never empty here, since the text splitter always returns at least one chunk.
   */
  method CombineWithSilence(audios: seq<seq<real>>) returns (combined: seq<real>)
    requires |audios| >= 1
    ensures combined == Concat(Parts(audios))
    ensures combined == Interleave(audios)
  {
    InterleaveIsConcat(audios);
    if |audios| == 1 {
      combined := audios[0];
      assert Parts(audios) == audios && audios[..0] == [];
      assert Concat(audios) == Concat([]) + audios[0];
      return;
    }
    var parts: seq<seq<real>> := [];
    for i := 0 to |audios|
      invariant parts == Parts(audios[..i]) + (if 0 < i < |audios| then [Silence()] else [])
    {
      assert audios[..i + 1][..i] == audios[..i];
      parts := parts + [audios[i]];
      if i < |audios| - 1 {
        parts := parts + [Silence()];
      }
    }
    assert audios[..|audios|] == audios;
    assert parts == Parts(audios) + [];
    assert Parts(audios) + [] == Parts(audios);
    combined := Concat(parts);
  }

  /** `n` audios give `2n - 1` parts: the audios at the even positions, in order, and a pause at every odd one. */
  lemma {:induction false} PartsShape(audios: seq<seq<real>>)
    requires |audios| >= 1
    ensures |Parts(audios)| == 2 * |audios| - 1
    ensures forall i | 0 <= i < |audios| :: Parts(audios)[2 * i] == audios[i]
    ensures forall i | 0 <= i < |audios| - 1 :: Parts(audios)[2 * i + 1] == Silence()
    decreases |audios|
  {
    var n := |audios|;
    if n > 1 {
      var front := audios[..n - 1];
      PartsShape(front);
      var ps := Parts(audios);
      assert ps == Parts(front) + [Silence(), audios[n - 1]];
      forall i | 0 <= i < n ensures ps[2 * i] == audios[i] {
        if i < n - 1 {
          assert ps[2 * i] == Parts(front)[2 * i] == front[i];
        }
      }
      forall i | 0 <= i < n - 1 ensures ps[2 * i + 1] == Silence() {
        if i < n - 2 {
          assert ps[2 * i + 1] == Parts(front)[2 * i + 1];
        }
      }
    }
  }

  // ---------------------------------------------------------------------------
  // Rendering the chunks

  /** A loaded KaniTTS model, known by the directory it was loaded from. */
  datatype Engine = Engine(modelPath: Config.Path)

  /** One call of the model on a chunk with a speaker: the chunk's audio, or the exception's text. */
  type Synthesizer = (Engine, string, Option<string>) -> Result<seq<real>, string>

  /** The audio of every chunk, in order, or the error of the first chunk that failed. */
  function Render(synth: Synthesizer, engine: Engine, chunks: seq<string>, speaker: Option<string>): Result<seq<seq<real>>, string>
    decreases |chunks|
  {
    if chunks == [] then Ok([])
    else
      match Render(synth, engine, chunks[..|chunks| - 1], speaker)
      case Err(e) => Err(e)
      case Ok(done) =>
        match synth(engine, chunks[|chunks| - 1], speaker)
        case Err(e) => Err(e)
        case Ok(audio) => Ok(done + [audio])
  }

  /**
   * Rendering succeeds exactly when the model succeeds on every chunk, and then
   * gives one audio per chunk, in order; otherwise it reports the error of the
   * first chunk that failed.
   */
  lemma {:induction false} RenderShape(synth: Synthesizer, engine: Engine, chunks: seq<string>, speaker: Option<string>)
    ensures Render(synth, engine, chunks, speaker).Ok? <==>
      forall i | 0 <= i < |chunks| :: synth(engine, chunks[i], speaker).Ok?
    ensures Render(synth, engine, chunks, speaker).Ok? ==>
      var audios := Render(synth, engine, chunks, speaker).value;
      |audios| == |chunks| && forall i | 0 <= i < |chunks| :: audios[i] == synth(engine, chunks[i], speaker).value
    ensures Render(synth, engine, chunks, speaker).Err? ==>
      exists i | 0 <= i < |chunks| ::
        && synth(engine, chunks[i], speaker) == Err(Render(synth, engine, chunks, speaker).error)
        && forall j | 0 <= j < i :: synth(engine, chunks[j], speaker).Ok?
    decreases |chunks|
  {
    if chunks != [] {
      var n := |chunks|;
      var front := chunks[..n - 1];
      RenderShape(synth, engine, front, speaker);
      assert forall i | 0 <= i < n - 1 :: front[i] == chunks[i];
      match Render(synth, engine, front, speaker)
      case Err(e) =>
        var i :| 0 <= i < |front| && synth(engine, front[i], speaker) == Err(e)
          && forall j | 0 <= j < i :: synth(engine, front[j], speaker).Ok?;
        assert synth(engine, chunks[i], speaker) == Err(e);
      case Ok(done) =>
    }
  }

  /** Once a prefix of the chunks fails, rendering all of them fails with the same error. */
  lemma {:induction false} RenderFailsEarly(synth: Synthesizer, engine: Engine, chunks: seq<string>, k: nat, speaker: Option<string>)
    requires k <= |chunks|
    requires Render(synth, engine, chunks[..k], speaker).Err?
    ensures Render(synth, engine, chunks, speaker) == Render(synth, engine, chunks[..k], speaker)
    decreases |chunks| - k
  {
    if k < |chunks| {
      assert chunks[..k + 1][..k] == chunks[..k];
      RenderFailsEarly(synth, engine, chunks, k + 1, speaker);
    } else {
      assert chunks[..k] == chunks;
    }
  }

  /** The loop over the chunks: the model is called on each in turn, and the first exception ends it. */
  method RenderChunks(synth: Synthesizer, engine: Engine, chunks: seq<string>, speaker: Option<string>)
    returns (r: Result<seq<seq<real>>, string>)
    ensures r == Render(synth, engine, chunks, speaker)
  {
    var audios: seq<seq<real>> := [];
    for i := 0 to |chunks|
      invariant Render(synth, engine, chunks[..i], speaker) == Ok(audios)
    {
      assert chunks[..i + 1][..i] == chunks[..i];
      match synth(engine, chunks[i], speaker) {
        case Err(e) =>
          RenderFailsEarly(synth, engine, chunks, i + 1, speaker);
          return Err(e);
        case Ok(audio) =>
          audios := audios + [audio];
      }
    }
    assert chunks[..|chunks|] == chunks;
    r := Ok(audios);
  }

  // ---------------------------------------------------------------------------
  // The service state

  /** What `generate` returns: the audio (before it is written as a WAV file) and the file's name. */
  datatype Generated = Generated(audio: seq<real>, filename: string)

  /**
   * The state of a `TTSService`: the keys of `_models` in insertion order, the
   * dictionary itself, and `_current_model_key`.
   */
  datatype State = State(order: seq<string>, engines: map<string, Engine>, current: Option<string>)

  predicate Distinct(s: seq<string>) {
    forall i, j | 0 <= i < j < |s| :: s[i] != s[j]
  }

  /**
   * The invariant of the service: the key order lists each loaded key once, every
   * loaded model is a catalog model loaded from its own directory, and the current
   * model, when there is one, is loaded.
   */
  predicate WellFormed(st: State) {
    && Distinct(st.order)
    && (forall i | 0 <= i < |st.order| :: st.order[i] in st.engines)
    && (forall k | k in st.engines :: k in st.order)
    && (forall k | k in st.engines :: k in Config.Models && st.engines[k] == Engine(Config.Models[k].localPath))
    && (st.current.Some? ==> st.current.value in st.engines)
  }

  /** A key order with one key removed, the others kept in order (`del` on a dictionary). */
  function Without(s: seq<string>, key: string): seq<string> {
    if s == [] then [] else (if s[0] == key then [] else [s[0]]) + Without(s[1..], key)
  }

  /** Removing a key keeps exactly the other keys, each once and in order. */
  lemma {:induction false} WithoutShape(s: seq<string>, key: string)
    ensures forall x :: x in Without(s, key) <==> x in s && x != key
    ensures Distinct(s) ==> Distinct(Without(s, key))
    ensures key !in s ==> Without(s, key) == s
  {
    if s != [] {
      WithoutShape(s[1..], key);
      if Distinct(s) {
        assert Distinct(s[1..]);
        var w := Without(s, key);
        if s[0] != key {
          assert w == [s[0]] + Without(s[1..], key);
          forall i, j | 0 <= i < j < |w| ensures w[i] != w[j] {
            if i == 0 {
              assert w[j] in Without(s[1..], key);
              assert s[0] !in s[1..];
            }
          }
        }
      }
    }
  }

  /** Removing the key that was appended last gives the order before it was appended. */
  lemma {:induction false} WithoutLast(s: seq<string>, key: string)
    requires key !in s
    ensures Without(s + [key], key) == s
  {
    if s == [] {
      assert [key][1..] == [];
    } else {
      assert (s + [key])[1..] == s[1..] + [key];
      WithoutLast(s[1..], key);
    }
  }

  /** `load_model`: the new state and what the call returns or raises. */
  function LoadStep(st: State, key: string, disk: Downloader.Disk, loadError: Option<string>): (State, Result<bool, Exception>) {
    if key !in Config.Models then (st, Err(ValueError("Unknown model: " + key)))
    else if !Downloader.IsModelDownloaded(disk, key) then (st, Err(RuntimeError("Model " + key + " is not downloaded")))
    else if key in st.engines then (st.(current := Some(key)), Ok(true))
    else
      match loadError
      case Some(e) => (st, Err(RuntimeError("Failed to load model: " + e)))
      case None => (State(st.order + [key], st.engines[key := Engine(Config.Models[key].localPath)], Some(key)), Ok(true))
  }

  /** `unload_model`: the new state and whether the model was loaded. */
  function UnloadStep(st: State, key: string): (State, bool) {
    if key in st.engines then
      (State(Without(st.order, key), st.engines - {key}, if st.current == Some(key) then None else st.current), true)
    else (st, false)
  }

  /** `not text or not text.strip()`. */
  predicate EmptyText(text: string) {
    text == "" || Strip(text) == ""
  }

  /** The exception every failure after the model is ready turns into. */
  function GenerationFailure(message: string): Exception {
    RuntimeError("Failed to generate audio: " + message)
  }

  /**
   * The `try` block of `generate`, once the model is ready: the speaker is chosen,
   * the text is split into chunks, each chunk is rendered and the audio is joined
   * and saved; any exception becomes a RuntimeError.
   */
  function Produce(engine: Engine, text: string, key: string, speaker: Option<string>, synth: Synthesizer,
                   saveError: Option<string>, token: string): Result<Generated, Exception>
  {
    match Render(synth, engine, Chunker.Chunks(text), SpeakerFor(speaker, key))
    case Err(e) => Err(GenerationFailure(e))
    case Ok(audios) =>
      match saveError
      case Some(e) => Err(GenerationFailure(e))
      case None => Ok(Generated(Interleave(audios), "output_" + token + ".wav"))
  }

  /**
   * `generate`, from its abstract inputs: the files on disk, whether constructing
   * the model fails, what the model renders for each chunk, whether saving the
   * audio fails, and the eight hexadecimal digits taken from a fresh UUID.
   */
  function GenerateStep(st: State, text: string, key: string, speaker: Option<string>, disk: Downloader.Disk,
                        loadError: Option<string>, synth: Synthesizer, saveError: Option<string>,
                        token: string): (State, Result<Generated, Exception>)
  {
    if EmptyText(text) then (st, Err(ValueError("Text cannot be empty")))
    else
      var step := if key in st.engines then (st, Ok(true)) else LoadStep(st, key, disk, loadError);
      var ready, loaded := step.0, step.1;
      if loaded.Err? then (ready, Err(loaded.error))
      else (ready, Produce(ready.engines[key], text, key, speaker, synth, saveError, token))
  }

  /** The body of the `try` block of `generate`. */
  method Synthesize(engine: Engine, text: string, key: string, speaker: Option<string>, synth: Synthesizer,
                    saveError: Option<string>, token: string) returns (r: Result<Generated, Exception>)
    ensures r == Produce(engine, text, key, speaker, synth, saveError, token)
  {
    var speakerId := SpeakerFor(speaker, key);
    var chunks := Chunker.SplitIntoSentences(text);
    var rendered := RenderChunks(synth, engine, chunks, speakerId);
    if rendered.Err? {
      return Err(GenerationFailure(rendered.error));
    }
    RenderShape(synth, engine, chunks, speakerId);
    var audio := CombineWithSilence(rendered.value);
    var filename := "output_" + token + ".wav";
    if saveError.Some? {
      return Err(GenerationFailure(saveError.value));
    }
    r := Ok(Generated(audio, filename));
  }

  /** Generation proper fails only with a RuntimeError. */
  lemma ProduceErrorIsRuntime(engine: Engine, text: string, key: string, speaker: Option<string>, synth: Synthesizer,
                              saveError: Option<string>, token: string)
    ensures Produce(engine, text, key, speaker, synth, saveError, token).Err? ==>
      Produce(engine, text, key, speaker, synth, saveError, token).error.RuntimeError?
  {
  }

  /**
   * Once the model is ready, generation succeeds exactly when the model renders
   * every chunk and the file is saved; the audio is then the chunks' renderings,
   * in order, joined with pauses, and the file is `output_<token>.wav`.  A failure
   * is a RuntimeError carrying the first failing chunk's message, or the save error.
   */
  lemma ProduceResult(engine: Engine, text: string, key: string, speaker: Option<string>, synth: Synthesizer,
                      saveError: Option<string>, token: string)
    ensures var r := Produce(engine, text, key, speaker, synth, saveError, token);
      var chunks, spk := Chunker.Chunks(text), SpeakerFor(speaker, key);
      r.Ok? <==> saveError.None? && forall i | 0 <= i < |chunks| :: synth(engine, chunks[i], spk).Ok?
    ensures var r := Produce(engine, text, key, speaker, synth, saveError, token);
      var chunks, spk := Chunker.Chunks(text), SpeakerFor(speaker, key);
      r.Ok? ==>
        && r.value.filename == "output_" + token + ".wav"
        && exists audios: seq<seq<real>> ::
             && |audios| == |chunks| >= 1
             && (forall i | 0 <= i < |chunks| :: synth(engine, chunks[i], spk) == Ok(audios[i]))
             && r.value.audio == Interleave(audios)
    ensures var r := Produce(engine, text, key, speaker, synth, saveError, token);
      var chunks, spk := Chunker.Chunks(text), SpeakerFor(speaker, key);
      r.Err? ==>
        exists m :: r == Err(GenerationFailure(m)) &&
          (saveError.None? ==>
             exists i | 0 <= i < |chunks| ::
               synth(engine, chunks[i], spk) == Err(m) && forall j | 0 <= j < i :: synth(engine, chunks[j], spk).Ok?)
  {
    var chunks, spk := Chunker.Chunks(text), SpeakerFor(speaker, key);
    Chunker.ChunksNeverEmpty(text);
    RenderShape(synth, engine, chunks, spk);
    var r := Produce(engine, text, key, speaker, synth, saveError, token);
    match Render(synth, engine, chunks, spk)
    case Err(e) =>
      assert r == Err(GenerationFailure(e));
    case Ok(audios) =>
      if saveError.Some? {
        assert r == Err(GenerationFailure(saveError.value));
      }
  }

  /** What `uuid.uuid4().hex[:8]` yields: eight lower-case hexadecimal digits. */
  predicate IsHexToken(token: string) {
    |token| == 8 && forall i | 0 <= i < |token| :: token[i] in "0123456789abcdef"
  }

  // ---------------------------------------------------------------------------
  // The service object

  /** `TTSService`: the loaded models and the current one, updated in place. */
  class TTSService {
    var order: seq<string>
    var engines: map<string, Engine>
    var current: Option<string>

    /** The abstract value of this object's fields, the state the step functions work on. */
    function Abstract(): State
      reads this
    {
      State(order, engines, current)
    }

    predicate Valid()
      reads this
    {
      WellFormed(Abstract())
    }

    constructor ()
      ensures Valid() && Abstract() == State([], map[], None)
    {
      order := [];
      engines := map[];
      current := None;
    }

    /** `is_model_loaded`. */
    function IsModelLoaded(key: string): (loaded: bool)
      reads this
      requires Valid()
      ensures loaded <==> key in order
      ensures loaded ==> key in Config.Models
    {
      key in engines
    }

    /** `get_loaded_models`: the loaded keys, each once, in the order they were loaded. */
    function GetLoadedModels(): (keys: seq<string>)
      reads this
      requires Valid()
      ensures forall k :: k in keys <==> k in engines
      ensures Distinct(keys)
      ensures forall k | k in keys :: k in Config.Models
    {
      order
    }

    /** `load_model`. */
    method LoadModel(key: string, disk: Downloader.Disk, loadError: Option<string>) returns (r: Result<bool, Exception>)
      requires Valid()
      modifies this
      ensures Valid()
      ensures (Abstract(), r) == LoadStep(old(Abstract()), key, disk, loadError)
    {
      LoadKeepsWellFormed(Abstract(), key, disk, loadError);
      if key !in Config.Models {
        return Err(ValueError("Unknown model: " + key));
      }
      if !Downloader.IsModelDownloaded(disk, key) {
        return Err(RuntimeError("Model " + key + " is not downloaded"));
      }
      if key in engines {
        current := Some(key);
        return Ok(true);
      }
      match loadError {
        case Some(e) =>
          return Err(RuntimeError("Failed to load model: " + e));
        case None =>
          engines := engines[key := Engine(Config.Models[key].localPath)];
          order := order + [key];
          current := Some(key);
          return Ok(true);
      }
    }

    /** `unload_model`. */
    method UnloadModel(key: string) returns (wasLoaded: bool)
      requires Valid()
      modifies this
      ensures Valid()
      ensures (Abstract(), wasLoaded) == UnloadStep(old(Abstract()), key)
    {
      UnloadKeepsWellFormed(Abstract(), key);
      if key in engines {
        engines := engines - {key};
        order := Without(order, key);
        if current == Some(key) {
          current := None;
        }
        return true;
      }
      return false;
    }

    /** `generate`. */
    method Generate(text: string, key: string, speaker: Option<string>, disk: Downloader.Disk,
                    loadError: Option<string>, synth: Synthesizer, saveError: Option<string>, token: string)
      returns (r: Result<Generated, Exception>)
      requires Valid()
      requires IsHexToken(token)
      modifies this
      ensures Valid()
      ensures (Abstract(), r) == GenerateStep(old(Abstract()), text, key, speaker, disk, loadError, synth, saveError, token)
    {
      if text == "" || Strip(text) == "" {
        return Err(ValueError("Text cannot be empty"));
      }
      if key !in engines {
        var loaded := LoadModel(key, disk, loadError);
        if loaded.Err? {
          return Err(loaded.error);
        }
      }
      r := Synthesize(engines[key], text, key, speaker, synth, saveError, token);
    }
  }

  // ---------------------------------------------------------------------------
  // Properties of the service

  /** Loading keeps the invariant. */
  lemma LoadKeepsWellFormed(st: State, key: string, disk: Downloader.Disk, loadError: Option<string>)
    requires WellFormed(st)
    ensures WellFormed(LoadStep(st, key, disk, loadError).0)
  {
    var next := LoadStep(st, key, disk, loadError).0;
    if next.order == st.order + [key] {
      forall i, j | 0 <= i < j < |next.order| ensures next.order[i] != next.order[j] {
        if j == |st.order| {
          assert next.order[i] == st.order[i];
        }
      }
    }
  }

  /** Unloading keeps the invariant. */
  lemma UnloadKeepsWellFormed(st: State, key: string)
    requires WellFormed(st)
    ensures WellFormed(UnloadStep(st, key).0)
  {
    WithoutShape(st.order, key);
    var next := UnloadStep(st, key).0;
    if key in st.engines {
      forall i | 0 <= i < |next.order| ensures next.order[i] in next.engines {
        assert next.order[i] in Without(st.order, key);
      }
    }
  }

  /**
   * `load_model` succeeds exactly for a catalog model whose files are on disk and
   * which is either loaded already or constructs without error; on success the
   * model is loaded and current, and no other model is loaded or unloaded.  The
   * three failures raise the source's exceptions and leave the state as it was.
   */
  lemma LoadOutcome(st: State, key: string, disk: Downloader.Disk, loadError: Option<string>)
    ensures LoadStep(st, key, disk, loadError).1.Ok? <==>
      key in Config.Models && Downloader.IsModelDownloaded(disk, key) && (key in st.engines || loadError.None?)
    ensures var out := LoadStep(st, key, disk, loadError);
      var next, r := out.0, out.1;
      r.Ok? ==>
        && r.value && key in next.engines && next.current == Some(key)
        && forall k | k != key :: (k in next.engines <==> k in st.engines) && (k in st.engines ==> next.engines[k] == st.engines[k])
    ensures var out := LoadStep(st, key, disk, loadError);
      var next, r := out.0, out.1;
      r.Err? ==> next == st
    ensures key !in Config.Models ==> LoadStep(st, key, disk, loadError).1 == Err(ValueError("Unknown model: " + key))
    ensures key in Config.Models && !Downloader.IsModelDownloaded(disk, key) ==>
      LoadStep(st, key, disk, loadError).1 == Err(RuntimeError("Model " + key + " is not downloaded"))
    ensures key in Config.Models && Downloader.IsModelDownloaded(disk, key) && key !in st.engines && loadError.Some? ==>
      LoadStep(st, key, disk, loadError).1 == Err(RuntimeError("Failed to load model: " + loadError.value))
  {
  }

  /** Loading a model a second time changes nothing and succeeds. */
  lemma LoadIdempotent(st: State, key: string, disk: Downloader.Disk, loadError: Option<string>, again: Option<string>)
    requires LoadStep(st, key, disk, loadError).1.Ok?
    ensures var next := LoadStep(st, key, disk, loadError).0;
      LoadStep(next, key, disk, again) == (next, Ok(true))
  {
  }

  /**
   * Unloading reports whether the model was loaded, and afterwards it is not; the
   * other loaded models stay, in their order; the current model is cleared only
   * when it is the one unloaded.
   */
  lemma UnloadOutcome(st: State, key: string)
    requires WellFormed(st)
    ensures var out := UnloadStep(st, key);
      var next, was := out.0, out.1;
      && was == (key in st.engines)
      && key !in next.engines && key !in next.order
      && (forall k | k != key :: (k in next.engines <==> k in st.engines) && (k in next.engines ==> next.engines[k] == st.engines[k]))
      && next.order == Without(st.order, key)
      && next.current == (if st.current == Some(key) then None else st.current)
    ensures key !in st.engines ==> UnloadStep(st, key) == (st, false)
  {
    WithoutShape(st.order, key);
  }

  /** Unloading a model that was just loaded restores the loaded set and its order, with no current model. */
  lemma UnloadUndoesLoad(st: State, key: string, disk: Downloader.Disk)
    requires WellFormed(st)
    requires key !in st.engines
    requires LoadStep(st, key, disk, None).1.Ok?
    ensures UnloadStep(LoadStep(st, key, disk, None).0, key) == (State(st.order, st.engines, None), true)
  {
    assert key !in st.order;
    WithoutLast(st.order, key);
    assert st.engines[key := Engine(Config.Models[key].localPath)] - {key} == st.engines;
  }

  /** Generation keeps the invariant. */
  lemma GenerateKeepsWellFormed(st: State, text: string, key: string, speaker: Option<string>, disk: Downloader.Disk,
                                loadError: Option<string>, synth: Synthesizer, saveError: Option<string>, token: string)
    requires WellFormed(st)
    ensures WellFormed(GenerateStep(st, text, key, speaker, disk, loadError, synth, saveError, token).0)
  {
    LoadKeepsWellFormed(st, key, disk, loadError);
  }

  /**
   * Empty or whitespace-only text is refused before anything else, leaving the
   * state as it was.  A request never unloads a model, and for a model that is
   * loaded already it changes nothing at all (not even the current model).  If
   * the model has to be loaded and that fails, the loader's exception is raised.
   */
  lemma GenerateGuards(st: State, text: string, key: string, speaker: Option<string>, disk: Downloader.Disk,
                       loadError: Option<string>, synth: Synthesizer, saveError: Option<string>, token: string)
    ensures EmptyText(text) <==> IsBlank(text)
    ensures IsBlank(text) ==>
      GenerateStep(st, text, key, speaker, disk, loadError, synth, saveError, token) == (st, Err(ValueError("Text cannot be empty")))
    ensures var next := GenerateStep(st, text, key, speaker, disk, loadError, synth, saveError, token).0;
      forall k | k in st.engines :: k in next.engines && next.engines[k] == st.engines[k]
    ensures key in st.engines ==> GenerateStep(st, text, key, speaker, disk, loadError, synth, saveError, token).0 == st
    ensures !IsBlank(text) && key !in st.engines && LoadStep(st, key, disk, loadError).1.Err? ==>
      GenerateStep(st, text, key, speaker, disk, loadError, synth, saveError, token)
        == (st, Err(LoadStep(st, key, disk, loadError).1.error))
  {
    StripBlank(text);
  }

  /**
   * A request for non-empty text whose model is loaded, or loads, goes on to the
   * generation proper with that model, which is the one loaded from the model's
   * own directory; a request that succeeds had its model ready.
   */
  lemma GenerateResult(st: State, text: string, key: string, speaker: Option<string>, disk: Downloader.Disk,
                       loadError: Option<string>, synth: Synthesizer, saveError: Option<string>, token: string)
    requires WellFormed(st)
    ensures var out := GenerateStep(st, text, key, speaker, disk, loadError, synth, saveError, token);
      var next, r := out.0, out.1;
      !IsBlank(text) && (key in st.engines || LoadStep(st, key, disk, loadError).1.Ok?) ==>
        && key in Config.Models && key in next.engines
        && next.engines[key] == Engine(Config.Models[key].localPath)
        && r == Produce(Engine(Config.Models[key].localPath), text, key, speaker, synth, saveError, token)
    ensures var out := GenerateStep(st, text, key, speaker, disk, loadError, synth, saveError, token);
      var next, r := out.0, out.1;
      r.Ok? ==> !IsBlank(text) && key in Config.Models && key in next.engines
  {
    StripBlank(text);
    LoadKeepsWellFormed(st, key, disk, loadError);
  }

  /**
   * For a catalog model on disk and non-empty text, a request can fail only with a
   * RuntimeError: loading can then fail only in the model's construction.
   */
  lemma GenerateErrorsAreRuntime(st: State, text: string, key: string, speaker: Option<string>, disk: Downloader.Disk,
                                 loadError: Option<string>, synth: Synthesizer, saveError: Option<string>, token: string)
    requires key in Config.Models && Downloader.IsModelDownloaded(disk, key) && !IsBlank(text)
    ensures var r := GenerateStep(st, text, key, speaker, disk, loadError, synth, saveError, token).1;
      r.Err? ==> r.error.RuntimeError?
  {
    StripBlank(text);
    var ready := if key in st.engines then st else LoadStep(st, key, disk, loadError).0;
    if key in ready.engines {
      ProduceErrorIsRuntime(ready.engines[key], text, key, speaker, synth, saveError, token);
    }
  }
}
