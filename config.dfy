/**
 * The catalog every other component keys on: the two speech models, the speakers
 * each of them offers, the directories the backend uses and the audio sample rate.
 */
module Config {

  /**
   * A file-system path, as pathlib keeps it: whether it starts at the file-system root,
   * and its segments. A relative path is read below `BASE_DIR`.
   */
  datatype Path = Path(absolute: bool, segments: seq<string>)

  /** A piece between two `/` as pathlib keeps it: empty pieces and `.` are dropped. */
  function Kept(piece: string): seq<string> {
    if piece == "" || piece == "." then [] else [piece]
  }

  /** The segments of the rest `s` of a path string, `piece` being the segment read so far. */
  function SegmentsFrom(s: string, piece: string): seq<string>
    decreases |s|
  {
    if s == [] then Kept(piece)
    else if s[0] == '/' then Kept(piece) + SegmentsFrom(s[1..], "")
    else SegmentsFrom(s[1..], piece + [s[0]])
  }

  /** The segments pathlib parses out of a path string. */
  function Segments(s: string): seq<string> {
    SegmentsFrom(s, "")
  }

  /** `dir / name`: an absolute name replaces `dir`; otherwise the name's segments are appended. */
  function Child(dir: Path, name: string): Path {
    if |name| > 0 && name[0] == '/' then Path(true, Segments(name))
    else Path(dir.absolute, dir.segments + Segments(name))
  }

  /** `BASE_DIR`, the repository root; where it lies on disk is not modelled. */
  const BaseDir: Path := Path(false, [])

  /** `MODELS_DIR`, the directory the model snapshots are downloaded into (`DirectoriesJoined`). */
  const ModelsDir: Path := Path(false, ["models"])

  /** `OUTPUT_DIR`, the directory generated audio files are written to (`DirectoriesJoined`). */
  const OutputDir: Path := Path(false, ["output"])

  /** One entry of `MODELS`. */
  datatype ModelInfo = ModelInfo(name: string, repoId: string, localPath: Path)

  /** One entry of a `SPEAKERS` list. */
  datatype Speaker = Speaker(id: string, name: string, gender: string)

  /** The keys of `MODELS` in the order the dictionary lists them. */
  const ModelOrder: seq<string> := ["en", "de"]

  /** `MODELS`; the local paths are the joins `DirectoriesJoined` proves. */
  const Models: map<string, ModelInfo> := map[
    "en" := ModelInfo("English", "nineninesix/kani-tts-400m-en", Path(false, ["models", "kani-tts-400m-en"])),
    "de" := ModelInfo("German (Multilingual)", "nineninesix/kani-tts-370m", Path(false, ["models", "kani-tts-370m"]))
  ]

  /** `SPEAKERS`. */
  const Speakers: map<string, seq<Speaker>> := map[
    "en" := [
      Speaker("jenny", "Jenny", "female"),
      Speaker("katie", "Katie", "female"),
      Speaker("david", "David", "male"),
      Speaker("andrew", "Andrew", "male"),
      Speaker("simon", "Simon", "male"),
      Speaker("puck", "Puck", "male"),
      Speaker("kore", "Kore", "female")
    ],
    "de" := [
      Speaker("thorsten", "Thorsten", "male"),
      Speaker("bert", "Bert", "male")
    ]
  ]

  /** `SAMPLE_RATE`, in samples per second. */
  const SampleRate: nat := 22050

  /** `p.parent`: the path without its last segment; a path without segments is its own parent. */
  function Parent(p: Path): Path {
    if p.segments == [] then p else Path(p.absolute, p.segments[..|p.segments| - 1])
  }

  /**
   * Where a path leads once the operating system follows its `..` segments (symbolic
   * links aside), as `os.path.normpath` computes it.
   */
  function Normalize(p: Path): Path {
    Path(p.absolute, Resolve(p.absolute, [], p.segments))
  }

  /** The segments `rest` resolved onto the already resolved `done`. */
  function Resolve(absolute: bool, done: seq<string>, rest: seq<string>): seq<string>
    decreases |rest|
  {
    if rest == [] then done
    else if rest[0] == ".." then
      if done != [] && done[|done| - 1] != ".." then Resolve(absolute, done[..|done| - 1], rest[1..])
      else if absolute then Resolve(absolute, done, rest[1..])
      else Resolve(absolute, done + [".."], rest[1..])
    else Resolve(absolute, done + [rest[0]], rest[1..])
  }

  /** Characters before the next `/` only extend the segment being read. */
  lemma {:induction false} SegmentsFromPrefix(a: string, rest: string, piece: string)
    requires '/' !in a
    ensures SegmentsFrom(a + rest, piece) == SegmentsFrom(rest, piece + a)
    decreases |a|
  {
    if a == [] {
      assert a + rest == rest && piece + a == piece;
    } else {
      assert (a + rest)[0] == a[0] && (a + rest)[1..] == a[1..] + rest;
      assert '/' !in a[1..];
      SegmentsFromPrefix(a[1..], rest, piece + [a[0]]);
      assert piece + [a[0]] + a[1..] == piece + a;
    }
  }

  /** A string without `/` is read as one segment, or as none when it is empty or `.`. */
  lemma SegmentsOfPlain(s: string)
    requires '/' !in s
    ensures Segments(s) == Kept(s)
  {
    SegmentsFromPrefix(s, "", "");
    assert s + "" == s && "" + s == s;
  }

  /** The text before the first `/` is the first segment, unless it is empty or `.`. */
  lemma SegmentsAfterSlash(a: string, b: string)
    requires '/' !in a
    ensures Segments(a + "/" + b) == Kept(a) + Segments(b)
  {
    SegmentsFromPrefix(a, "/" + b, "");
    assert a + "/" + b == a + ("/" + b);
    assert ("/" + b)[0] == '/' && ("/" + b)[1..] == b;
    assert "" + a == a;
  }

  /** Resolving segments that hold no `..` only appends them. */
  lemma {:induction false} ResolveWithoutParent(absolute: bool, done: seq<string>, rest: seq<string>)
    requires forall i | 0 <= i < |rest| :: rest[i] != ".."
    ensures Resolve(absolute, done, rest) == done + rest
    decreases |rest|
  {
    if rest != [] {
      assert rest[0] != "..";
      ResolveWithoutParent(absolute, done + [rest[0]], rest[1..]);
      assert done + [rest[0]] + rest[1..] == done + rest;
    }
  }

  /**
   * `dir / name` for a name without `/`: the name itself, directly inside `dir`, unless it
   * is empty or `.`, in which case the result is `dir` itself.
   */
  lemma ParentOfChild(dir: Path, name: string)
    ensures '/' !in name && (name == "" || name == ".") ==> Child(dir, name) == dir
    ensures '/' !in name && name != "" && name != "." ==>
      Child(dir, name) == Path(dir.absolute, dir.segments + [name]) &&
      Parent(Child(dir, name)) == dir && Child(dir, name) != dir
  {
    if '/' !in name {
      SegmentsOfPlain(name);
      if name != "" && name != "." {
        assert (dir.segments + [name])[..|dir.segments|] == dir.segments;
      } else {
        assert dir.segments + [] == dir.segments;
      }
    }
  }

  /** The directories are the joins config.py writes: `BASE_DIR / "models"`, `BASE_DIR / "output"` and `MODELS_DIR / <name>`. */
  lemma DirectoriesJoined()
    ensures ModelsDir == Child(BaseDir, "models") && OutputDir == Child(BaseDir, "output")
    ensures Models["en"].localPath == Child(ModelsDir, "kani-tts-400m-en")
    ensures Models["de"].localPath == Child(ModelsDir, "kani-tts-370m")
  {
    assert ModelsDir == Child(BaseDir, "models") by {
      assert '/' !in "models";
      ParentOfChild(BaseDir, "models");
    }
    assert OutputDir == Child(BaseDir, "output") by {
      assert '/' !in "output";
      ParentOfChild(BaseDir, "output");
    }
    assert Path(false, ["models", "kani-tts-400m-en"]) == Child(ModelsDir, "kani-tts-400m-en") by {
      assert '/' !in "kani-tts-400m-en";
      ParentOfChild(ModelsDir, "kani-tts-400m-en");
    }
    assert Path(false, ["models", "kani-tts-370m"]) == Child(ModelsDir, "kani-tts-370m") by {
      assert '/' !in "kani-tts-370m";
      ParentOfChild(ModelsDir, "kani-tts-370m");
    }
  }

  /** `MODELS` and `SPEAKERS` have the same keys, exactly `en` and `de`, listed once each and in that order. */
  lemma CatalogKeys()
    ensures Models.Keys == Speakers.Keys == {"en", "de"}
    ensures forall i | 0 <= i < |ModelOrder| :: ModelOrder[i] in Models
    ensures forall k | k in Models :: k in ModelOrder
    ensures forall i, j | 0 <= i < j < |ModelOrder| :: ModelOrder[i] != ModelOrder[j]
  {
  }

  /** Two models never share a repository or a local directory; each local directory is directly below `MODELS_DIR`. */
  lemma ModelsDistinct()
    ensures forall a, b | a in Models && b in Models && a != b ::
      Models[a].repoId != Models[b].repoId && Models[a].localPath != Models[b].localPath
    ensures forall k | k in Models :: Parent(Models[k].localPath) == ModelsDir && Models[k].localPath != ModelsDir
  {
  }

  /** Within each model's list the speaker ids are unique, and every gender is `female` or `male`. */
  lemma SpeakersWellFormed()
    ensures forall k, i, j | k in Speakers && 0 <= i < j < |Speakers[k]| :: Speakers[k][i].id != Speakers[k][j].id
    ensures forall k, i | k in Speakers && 0 <= i < |Speakers[k]| :: Speakers[k][i].gender in {"female", "male"}
  {
    forall k, i, j | k in Speakers && 0 <= i < j < |Speakers[k]| ensures Speakers[k][i].id != Speakers[k][j].id {
      var ids := seq(|Speakers[k]|, n requires 0 <= n < |Speakers[k]| => Speakers[k][n].id);
      if k == "en" {
        assert ids == ["jenny", "katie", "david", "andrew", "simon", "puck", "kore"];
      } else {
        assert ids == ["thorsten", "bert"];
      }
      assert ids[i] != ids[j];
    }
  }
}
