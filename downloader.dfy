/**
 * Model downloads: whether a model's files are on disk, the status record of a
 * model, the progress counters of a download, and the sequence of progress
 * events a download streams to the client.
 */
module Downloader {
  import opened Common
  import Config

  // ---------------------------------------------------------------------------
  // Is a model downloaded?

  /** The file system as the backend sees it: the entry names of every directory that exists. */
  type Disk = map<Config.Path, seq<string>>

  /** A glob pattern of the form `name` or `*suffix`. */
  datatype Pattern = Exact(name: string) | AnySuffix(suffix: string)

  /** Whether a directory entry matches a pattern (case-sensitive, as on POSIX). */
  predicate Matches(p: Pattern, entry: string) {
    match p
    case Exact(name) => entry == name
    case AnySuffix(suffix) => |suffix| <= |entry| && entry[|entry| - |suffix|..] == suffix
  }

  /** The patterns `is_model_downloaded` tries, in order. */
  const EssentialPatterns: seq<Pattern> := [AnySuffix(".safetensors"), Exact("config.json"), AnySuffix(".bin")]

  /** The loop over the patterns: does some pattern match some entry? */
  predicate AnyPatternMatches(patterns: seq<Pattern>, entries: seq<string>) {
    if patterns == [] then false
    else (exists i | 0 <= i < |entries| :: Matches(patterns[0], entries[i])) || AnyPatternMatches(patterns[1..], entries)
  }

  /** `is_model_downloaded`, over an abstract directory listing. */
  predicate IsModelDownloaded(disk: Disk, key: string) {
    if key !in Config.Models then false
    else
      var path := Config.Models[key].localPath;
      if path !in disk then false
      else AnyPatternMatches(EssentialPatterns, disk[path])
  }

  /** An entry that makes a model count as downloaded. */
  predicate IsEssentialFile(entry: string) {
    || (|entry| >= 12 && entry[|entry| - 12..] == ".safetensors")
    || entry == "config.json"
    || (|entry| >= 4 && entry[|entry| - 4..] == ".bin")
  }

  /**
   * A model is downloaded exactly when it is in the catalog, its local directory
   * exists, and that directory holds a `*.safetensors` file, a `config.json`, or a `*.bin` file.
   */
  lemma DownloadedIff(disk: Disk, key: string)
    ensures IsModelDownloaded(disk, key) <==>
      && key in Config.Models
      && Config.Models[key].localPath in disk
      && exists i | 0 <= i < |disk[Config.Models[key].localPath]| :: IsEssentialFile(disk[Config.Models[key].localPath][i])
  {
    if key in Config.Models && Config.Models[key].localPath in disk {
      var entries := disk[Config.Models[key].localPath];
      var ps := EssentialPatterns;
      assert ps[1..][1..][1..] == [];
      assert !AnyPatternMatches(ps[1..][1..][1..], entries);
      assert AnyPatternMatches(ps[1..][1..], entries) <==>
        exists i | 0 <= i < |entries| :: Matches(ps[1..][1..][0], entries[i]);
      assert AnyPatternMatches(ps[1..], entries) <==>
        || (exists i | 0 <= i < |entries| :: Matches(ps[1..][0], entries[i]))
        || AnyPatternMatches(ps[1..][1..], entries);
      assert AnyPatternMatches(ps, entries) <==>
        || (exists i | 0 <= i < |entries| :: Matches(ps[0], entries[i]))
        || (exists i | 0 <= i < |entries| :: Matches(ps[1..][0], entries[i]))
        || (exists i | 0 <= i < |entries| :: Matches(ps[1..][1..][0], entries[i]));
      assert AnyPatternMatches(ps, entries) <==>
        exists i | 0 <= i < |entries| :: Matches(ps[0], entries[i]) || Matches(ps[1], entries[i]) || Matches(ps[2], entries[i]);
      assert forall i | 0 <= i < |entries| :: IsEssentialFile(entries[i]) <==>
        (Matches(ps[0], entries[i]) || Matches(ps[1], entries[i]) || Matches(ps[2], entries[i]));
    }
  }

  // ---------------------------------------------------------------------------
  // Model status

  /** The dictionary `get_model_status` returns. */
  datatype ModelStatus =
    | UnknownStatus(error: string)
    | KnownStatus(key: string, name: string, repoId: string, downloaded: bool, localPath: Option<Config.Path>)

  /** `get_model_status`. */
  function GetModelStatus(disk: Disk, key: string): ModelStatus {
    if key !in Config.Models then UnknownStatus("Unknown model")
    else
      var model := Config.Models[key];
      var downloaded := IsModelDownloaded(disk, key);
      KnownStatus(key, model.name, model.repoId, downloaded, if downloaded then Some(model.localPath) else None)
  }

  /**
   * An unknown key gets the error record; a known key gets its catalog entry, and
   * its local path is present exactly when the model's essential files are on disk.
   */
  lemma ModelStatusShape(disk: Disk, key: string)
    ensures key !in Config.Models ==> GetModelStatus(disk, key) == UnknownStatus("Unknown model")
    ensures key in Config.Models ==>
      var st := GetModelStatus(disk, key);
      && st.KnownStatus? && st.key == key
      && st.name == Config.Models[key].name && st.repoId == Config.Models[key].repoId
      && st.downloaded == st.localPath.Some?
      && (st.localPath.Some? ==> st.localPath.value == Config.Models[key].localPath)
      && (st.localPath.Some? <==>
            Config.Models[key].localPath in disk
            && exists i | 0 <= i < |disk[Config.Models[key].localPath]| :: IsEssentialFile(disk[Config.Models[key].localPath][i]))
  {
    DownloadedIff(disk, key);
  }

  /** `get_all_models_status`: one `(key, status)` entry per catalog key, in catalog order. */
  function GetAllModelsStatus(disk: Disk): seq<(string, ModelStatus)> {
    seq(|Config.ModelOrder|, i requires 0 <= i < |Config.ModelOrder| =>
      (Config.ModelOrder[i], GetModelStatus(disk, Config.ModelOrder[i])))
  }

  /** The status table has exactly one entry for each catalog key, and each is that key's known status. */
  lemma AllModelsStatusShape(disk: Disk)
    ensures forall key | key in Config.Models ::
      exists i | 0 <= i < |GetAllModelsStatus(disk)| :: GetAllModelsStatus(disk)[i].0 == key
    ensures forall i, j | 0 <= i < j < |GetAllModelsStatus(disk)| ::
      GetAllModelsStatus(disk)[i].0 != GetAllModelsStatus(disk)[j].0
    ensures forall i | 0 <= i < |GetAllModelsStatus(disk)| ::
      var (key, st) := GetAllModelsStatus(disk)[i];
      key in Config.Models && st.KnownStatus? && st.key == key && st == GetModelStatus(disk, key)
  {
    Config.CatalogKeys();
    var table := GetAllModelsStatus(disk);
    forall key | key in Config.Models ensures exists i | 0 <= i < |table| :: table[i].0 == key {
      var i :| 0 <= i < |Config.ModelOrder| && Config.ModelOrder[i] == key;
      assert table[i].0 == key;
    }
  }

  // ---------------------------------------------------------------------------
  // Download progress

  /** The `status` of a download. */
  datatype Status = Pending | Downloading | Completed | Error

  /** The text the status field carries. */
  function StatusName(s: Status): string {
    match s
    case Pending => "pending"
    case Downloading => "downloading"
    case Completed => "completed"
    case Error => "error"
  }

  function Min(a: real, b: real): real {
    if a <= b then a else b
  }

  /** `progress_percent` for the given counters (exact, before rounding). */
  function Percent(downloaded: int, total: int): (p: real)
    ensures total == 0 ==> p == 0.0
    ensures p <= 100.0
    ensures total > 0 && downloaded >= 0 ==> 0.0 <= p
    ensures total > 0 && downloaded >= total ==> p == 100.0
    ensures total > 0 && 0 <= downloaded <= total ==> p * (total as real) == 100.0 * (downloaded as real)
  {
    if total == 0 then 0.0 else Min(100.0, (downloaded as real / total as real) * 100.0)
  }

  /** The dictionary `DownloadProgress.to_dict` returns; `progressPercent` is kept exact. */
  datatype ProgressRecord = ProgressRecord(
    modelKey: string,
    modelName: string,
    totalSize: int,
    downloadedSize: int,
    progressPercent: real,
    currentFile: string,
    status: Status,
    errorMessage: Option<string>,
    filesTotal: int,
    filesDownloaded: int)

  /** `DownloadProgress`: the counters of one download, updated in place as it runs. */
  class DownloadProgress {
    const modelKey: string
    var totalSize: int
    var downloadedSize: int
    var currentFile: string
    var status: Status
    var errorMessage: Option<string>
    var filesTotal: int
    var filesDownloaded: int

    constructor (modelKey: string)
      ensures this.modelKey == modelKey
      ensures totalSize == 0 && downloadedSize == 0 && currentFile == ""
      ensures status == Pending && errorMessage == None
      ensures filesTotal == 0 && filesDownloaded == 0
    {
      this.modelKey := modelKey;
      totalSize := 0;
      downloadedSize := 0;
      currentFile := "";
      status := Pending;
      errorMessage := None;
      filesTotal := 0;
      filesDownloaded := 0;
    }

    /** `progress_percent`. */
    function ProgressPercent(): (p: real)
      reads this
      ensures totalSize == 0 ==> p == 0.0
      ensures p <= 100.0
      ensures totalSize > 0 && downloadedSize >= 0 ==> 0.0 <= p
      ensures totalSize > 0 && downloadedSize >= totalSize ==> p == 100.0
    {
      Percent(downloadedSize, totalSize)
    }

    /** `to_dict`; the model name is looked up in the catalog, which fails for an unknown key. */
    function ToDict(): (d: ProgressRecord)
      reads this
      requires modelKey in Config.Models
      ensures d.modelKey == modelKey && d.modelName == Config.Models[modelKey].name
      ensures d.totalSize == totalSize && d.downloadedSize == downloadedSize && d.progressPercent == ProgressPercent()
      ensures d.status == status && d.errorMessage == errorMessage
      ensures d.filesTotal == filesTotal && d.filesDownloaded == filesDownloaded && d.currentFile == currentFile
    {
      ProgressRecord(modelKey, Config.Models[modelKey].name, totalSize, downloadedSize, ProgressPercent(),
                     currentFile, status, errorMessage, filesTotal, filesDownloaded)
    }
  }

  // ---------------------------------------------------------------------------
  // The download event stream

  /** What one event of the stream carries. */
  datatype Event =
    | UnknownModelEvent  // {"status": "error", "error_message": "Unknown model"}
    | Snapshot(record: ProgressRecord)

  function EventStatus(e: Event): Status {
    match e
    case UnknownModelEvent => Error
    case Snapshot(r) => r.status
  }

  function EventError(e: Event): Option<string> {
    match e
    case UnknownModelEvent => Some("Unknown model")
    case Snapshot(r) => r.errorMessage
  }

  predicate IsTerminal(e: Event) {
    EventStatus(e) == Completed || EventStatus(e) == Error
  }

  /** The errors the Hugging Face client can raise, as the downloader tells them apart. */
  datatype HubError = GatedRepo | RepoNotFound | OtherError(message: string)

  /** The message an error event carries for each kind of error. */
  function ErrorText(e: HubError): string {
    match e
    case GatedRepo => "This model requires authentication. Please log in to Hugging Face."
    case RepoNotFound => "Model repository not found."
    case OtherError(m) => m
  }

  /** One file of the repository, as `repo_info` lists it; its size may be missing. */
  datatype Sibling = Sibling(size: Option<nat>)

  /** What `repo_info` returns; the list of files may be missing. */
  datatype RepoInfo = RepoInfo(siblings: Option<seq<Sibling>>)

  /** What one poll of the download directory observes: its total size and its file count. */
  datatype Poll = Poll(dirSize: nat, fileCount: nat)

  /** How `snapshot_download` ends. */
  datatype DownloadOutcome = Finished | Failed(error: HubError)

  /** `repo_info.siblings or []`. */
  function SiblingsOf(info: RepoInfo): seq<Sibling> {
    match info.siblings
    case None => []
    case Some(s) => s
  }

  /** `sum(s.size or 0 for s in siblings)`. */
  function SumSizes(siblings: seq<Sibling>): nat {
    if siblings == [] then 0
    else (match siblings[0].size case None => 0 case Some(n) => n) + SumSizes(siblings[1..])
  }

  /** The record `to_dict` gives for a known model with these counters. */
  function Record(key: string, status: Status, total: int, downloaded: int, filesTotal: int,
                  filesDownloaded: int, error: Option<string>): ProgressRecord
    requires key in Config.Models
  {
    ProgressRecord(key, Config.Models[key].name, total, downloaded, Percent(downloaded, total), "",
                   status, error, filesTotal, filesDownloaded)
  }

  /**
   * The events `download_model_with_progress` yields, from its abstract inputs:
   * the listing (is the model already there), the result of `repo_info`, what
   * each poll of the directory saw, and how the download ended.
   */
  function DownloadTrace(key: string, disk: Disk, repo: Result<RepoInfo, HubError>, polls: seq<Poll>,
                         outcome: DownloadOutcome): seq<Event>
  {
    if key !in Config.Models then [UnknownModelEvent]
    else if IsModelDownloaded(disk, key) then [Snapshot(Record(key, Completed, 1, 1, 0, 0, None))]
    else
      [Snapshot(Record(key, Downloading, 0, 0, 0, 0, None))]
      + match repo
        case Err(e) => [Snapshot(Record(key, Error, 0, 0, 0, 0, Some(ErrorText(e))))]
        case Ok(info) => TransferEvents(key, SiblingsOf(info), polls, outcome)
  }

  /** The events after `repo_info` succeeded: the sizes, one event per poll, and the terminal event. */
  function TransferEvents(key: string, siblings: seq<Sibling>, polls: seq<Poll>, outcome: DownloadOutcome): seq<Event>
    requires key in Config.Models
  {
    var files, total := |siblings|, SumSizes(siblings);
    [Snapshot(Record(key, Downloading, total, 0, files, 0, None))]
    + PollEvents(key, total, files, polls)
    + [FinalEvent(key, total, files, polls, outcome)]
  }

  /** The terminal event of a transfer; an error keeps the counters of the last poll. */
  function FinalEvent(key: string, total: int, files: int, polls: seq<Poll>, outcome: DownloadOutcome): Event
    requires key in Config.Models
  {
    var seen := if polls == [] then Poll(0, 0) else polls[|polls| - 1];
    match outcome
    case Finished => Snapshot(Record(key, Completed, total, total, files, seen.fileCount, None))
    case Failed(e) => Snapshot(Record(key, Error, total, seen.dirSize, files, seen.fileCount, Some(ErrorText(e))))
  }

  /** One "downloading" event per poll of the directory. */
  function PollEvents(key: string, total: int, files: int, polls: seq<Poll>): seq<Event>
    requires key in Config.Models
  {
    seq(|polls|, i requires 0 <= i < |polls| =>
      Snapshot(Record(key, Downloading, total, polls[i].dirSize, files, polls[i].fileCount, None)))
  }

  /**
   * `download_model_with_progress`: a `DownloadProgress` object is updated in place
   * and a snapshot of it is taken at every `yield`.
   */
  method DownloadModelWithProgress(key: string, disk: Disk, repo: Result<RepoInfo, HubError>, polls: seq<Poll>,
                                   outcome: DownloadOutcome) returns (events: seq<Event>)
    ensures events == DownloadTrace(key, disk, repo, polls, outcome)
    ensures WellFormedTrace(events)
  {
    TraceWellFormed(key, disk, repo, polls, outcome);
    if key !in Config.Models {
      events := [UnknownModelEvent];
      return;
    }
    var progress := new DownloadProgress(key);
    if IsModelDownloaded(disk, key) {
      progress.status := Completed;
      progress.downloadedSize := 1;
      progress.totalSize := 1;
      events := [Snapshot(progress.ToDict())];
      return;
    }
    progress.status := Downloading;
    events := [Snapshot(progress.ToDict())];
    match repo {
      case Err(e) =>
        progress.status := Error;
        progress.errorMessage := Some(ErrorText(e));
        events := events + [Snapshot(progress.ToDict())];
      case Ok(info) =>
        var rest := Transfer(progress, SiblingsOf(info), polls, outcome);
        events := events + rest;
    }
  }

  /** The part of the download after `repo_info` succeeded, on the progress object of that download. */
  method Transfer(progress: DownloadProgress, siblings: seq<Sibling>, polls: seq<Poll>, outcome: DownloadOutcome)
    returns (events: seq<Event>)
    requires progress.modelKey in Config.Models
    requires progress.status == Downloading && progress.errorMessage == None && progress.currentFile == ""
    requires progress.downloadedSize == 0 && progress.filesDownloaded == 0
    modifies progress
    ensures events == TransferEvents(progress.modelKey, siblings, polls, outcome)
    ensures events[|events| - 1] == Snapshot(progress.ToDict())
    ensures progress.totalSize == SumSizes(siblings) && progress.filesTotal == |siblings|
    ensures progress.status == (if outcome.Finished? then Completed else Error)
    ensures progress.errorMessage == (if outcome.Finished? then None else Some(ErrorText(outcome.error)))
    ensures progress.downloadedSize == (if outcome.Finished? then SumSizes(siblings) else if polls == [] then 0 else polls[|polls| - 1].dirSize)
    ensures progress.filesDownloaded == (if polls == [] then 0 else polls[|polls| - 1].fileCount)
    ensures progress.currentFile == ""
  {
    var key := progress.modelKey;
    progress.filesTotal := |siblings|;
    progress.totalSize := SumSizes(siblings);
    events := [Snapshot(progress.ToDict())];
    var i := 0;
    while i < |polls|
      invariant 0 <= i <= |polls|
      invariant progress.modelKey == key && progress.status == Downloading && progress.errorMessage == None
      invariant progress.currentFile == ""
      invariant progress.totalSize == SumSizes(siblings) && progress.filesTotal == |siblings|
      invariant i == 0 ==> progress.downloadedSize == 0 && progress.filesDownloaded == 0
      invariant i > 0 ==> progress.downloadedSize == polls[i - 1].dirSize && progress.filesDownloaded == polls[i - 1].fileCount
      invariant events == [Snapshot(Record(key, Downloading, SumSizes(siblings), 0, |siblings|, 0, None))]
                          + PollEvents(key, SumSizes(siblings), |siblings|, polls[..i])
    {
      progress.downloadedSize := polls[i].dirSize;
      progress.filesDownloaded := polls[i].fileCount;
      events := events + [Snapshot(progress.ToDict())];
      i := i + 1;
    }
    assert polls[..|polls|] == polls;
    match outcome {
      case Finished =>
        progress.status := Completed;
        progress.downloadedSize := progress.totalSize;
      case Failed(e) =>
        progress.status := Error;
        progress.errorMessage := Some(ErrorText(e));
    }
    events := events + [Snapshot(progress.ToDict())];
  }

  // ---------------------------------------------------------------------------
  // Properties of the event stream

  /**
   * The event state machine: at least one event, the last one terminal
   * (completed or error), and every earlier one "downloading".
   */
  predicate WellFormedTrace(events: seq<Event>) {
    && events != []
    && IsTerminal(events[|events| - 1])
    && forall i | 0 <= i < |events| - 1 :: EventStatus(events[i]) == Downloading
  }

  /** Every trace is well formed: exactly one terminal event, and it is the last; no event is "pending". */
  lemma TraceWellFormed(key: string, disk: Disk, repo: Result<RepoInfo, HubError>, polls: seq<Poll>,
                        outcome: DownloadOutcome)
    ensures WellFormedTrace(DownloadTrace(key, disk, repo, polls, outcome))
    ensures forall i | 0 <= i < |DownloadTrace(key, disk, repo, polls, outcome)| ::
      IsTerminal(DownloadTrace(key, disk, repo, polls, outcome)[i]) <==> i == |DownloadTrace(key, disk, repo, polls, outcome)| - 1
    ensures forall i | 0 <= i < |DownloadTrace(key, disk, repo, polls, outcome)| ::
      EventStatus(DownloadTrace(key, disk, repo, polls, outcome)[i]) != Pending
  {
  }

  /** An unknown key yields exactly one event: an error saying "Unknown model". */
  lemma TraceUnknownKey(key: string, disk: Disk, repo: Result<RepoInfo, HubError>, polls: seq<Poll>,
                        outcome: DownloadOutcome)
    requires key !in Config.Models
    ensures var t := DownloadTrace(key, disk, repo, polls, outcome);
      |t| == 1 && EventStatus(t[0]) == Error && EventError(t[0]) == Some("Unknown model")
  {
  }

  /** A model already on disk yields exactly one event: completed, with sizes 1 of 1, so 100 percent. */
  lemma TraceAlreadyDownloaded(key: string, disk: Disk, repo: Result<RepoInfo, HubError>, polls: seq<Poll>,
                               outcome: DownloadOutcome)
    requires IsModelDownloaded(disk, key)
    ensures var t := DownloadTrace(key, disk, repo, polls, outcome);
      && |t| == 1 && t[0].Snapshot? && t[0].record.status == Completed
      && t[0].record.totalSize == 1 && t[0].record.downloadedSize == 1
      && t[0].record.progressPercent == 100.0 && t[0].record.errorMessage == None
  {
  }

  /**
   * A fresh download of a known model: a "downloading" event with zero counters comes
   * first, and the trace holds three events plus one per poll when the repository
   * info arrives; when it fails, the error event follows the first event at once.
   */
  lemma TraceOfFreshDownload(key: string, disk: Disk, repo: Result<RepoInfo, HubError>, polls: seq<Poll>,
                             outcome: DownloadOutcome)
    requires key in Config.Models && !IsModelDownloaded(disk, key)
    ensures var t := DownloadTrace(key, disk, repo, polls, outcome);
      && |t| == (if repo.Ok? then 3 + |polls| else 2)
      && t[0].Snapshot? && t[0].record.status == Downloading
      && t[0].record.totalSize == 0 && t[0].record.downloadedSize == 0
      && t[0].record.filesTotal == 0 && t[0].record.filesDownloaded == 0 && t[0].record.errorMessage == None
    ensures repo.Err? ==>
      var t := DownloadTrace(key, disk, repo, polls, outcome);
      EventStatus(t[1]) == Error && EventError(t[1]) == Some(ErrorText(repo.error))
  {
  }

  /**
   * Once the repository info arrives, a second "downloading" event carries the file
   * count and the total size (missing sizes counted as 0), then one event per poll
   * reports what that poll saw, against the same total.
   */
  lemma TraceProgressEvents(key: string, disk: Disk, info: RepoInfo, polls: seq<Poll>, outcome: DownloadOutcome)
    requires key in Config.Models && !IsModelDownloaded(disk, key)
    ensures var t := DownloadTrace(key, disk, Ok(info), polls, outcome);
      && |t| == 3 + |polls|
      && t[1].Snapshot? && t[1].record.status == Downloading
      && t[1].record.filesTotal == |SiblingsOf(info)| && t[1].record.totalSize == SumSizes(SiblingsOf(info))
      && forall i | 0 <= i < |polls| ::
        t[2 + i].Snapshot? && t[2 + i].record.status == Downloading
        && t[2 + i].record.downloadedSize == polls[i].dirSize
        && t[2 + i].record.filesDownloaded == polls[i].fileCount
        && t[2 + i].record.totalSize == t[1].record.totalSize
  {
    var t := DownloadTrace(key, disk, Ok(info), polls, outcome);
    var files, total := |SiblingsOf(info)|, SumSizes(SiblingsOf(info));
    var pe := PollEvents(key, total, files, polls);
    FreshTraceSplit(key, disk, info, polls, outcome);
    TransferEventsSplit(key, SiblingsOf(info), polls, outcome);
    PollEventsShape(key, total, files, polls);
    var sizes := Snapshot(Record(key, Downloading, total, 0, files, 0, None));
    var rest := [sizes] + pe + [FinalEvent(key, total, files, polls, outcome)];
    assert t == [Snapshot(Record(key, Downloading, 0, 0, 0, 0, None))] + rest;
    assert t[1] == sizes;
    forall i | 0 <= i < |polls| ensures t[2 + i] == pe[i] {
      assert t[2 + i] == rest[1 + i];
    }
  }

  /** A fresh download whose `repo_info` succeeded: the zeroed event, then the transfer's events. */
  lemma FreshTraceSplit(key: string, disk: Disk, info: RepoInfo, polls: seq<Poll>, outcome: DownloadOutcome)
    requires key in Config.Models && !IsModelDownloaded(disk, key)
    ensures DownloadTrace(key, disk, Ok(info), polls, outcome) ==
      [Snapshot(Record(key, Downloading, 0, 0, 0, 0, None))] + TransferEvents(key, SiblingsOf(info), polls, outcome)
  {
  }

  /** The transfer's events: the sizes, the poll events and the terminal event. */
  lemma TransferEventsSplit(key: string, siblings: seq<Sibling>, polls: seq<Poll>, outcome: DownloadOutcome)
    requires key in Config.Models
    ensures var files, total := |siblings|, SumSizes(siblings);
      TransferEvents(key, siblings, polls, outcome) ==
        [Snapshot(Record(key, Downloading, total, 0, files, 0, None))] + PollEvents(key, total, files, polls)
        + [FinalEvent(key, total, files, polls, outcome)]
  {
  }

  /** Each poll event reports that poll's counters against the given totals. */
  lemma PollEventsShape(key: string, total: int, files: int, polls: seq<Poll>)
    requires key in Config.Models
    ensures var pe := PollEvents(key, total, files, polls);
      && |pe| == |polls|
      && forall i | 0 <= i < |polls| ::
        pe[i].Snapshot? && pe[i].record.status == Downloading
        && pe[i].record.downloadedSize == polls[i].dirSize
        && pe[i].record.filesDownloaded == polls[i].fileCount
        && pe[i].record.totalSize == total
  {
  }

  /**
   * The completed event of a fresh download reports everything downloaded: its
   * percent is 100 when the repository reported a positive total, and 0 when it
   * reported 0.  A failed download's event carries the error's message.
   */
  lemma TraceTerminalEvent(key: string, disk: Disk, repo: Result<RepoInfo, HubError>, polls: seq<Poll>,
                           outcome: DownloadOutcome)
    requires key in Config.Models && !IsModelDownloaded(disk, key) && repo.Ok?
    ensures var t := DownloadTrace(key, disk, repo, polls, outcome);
      var last := t[|t| - 1].record;
      && (outcome.Finished? ==>
            && last.status == Completed && last.downloadedSize == last.totalSize
            && last.progressPercent == (if last.totalSize > 0 then 100.0 else 0.0)
            && last.errorMessage == None)
      && (outcome.Failed? ==> last.status == Error && last.errorMessage == Some(ErrorText(outcome.error)))
  {
  }

  /**
   * Whichever step fails, the stream ends with an error event whose message tells
   * the kinds apart: authentication for a gated repository, "not found" for a
   * missing one, and otherwise the exception's own text.
   */
  lemma TraceErrorMessage(key: string, disk: Disk, repo: Result<RepoInfo, HubError>, polls: seq<Poll>,
                          outcome: DownloadOutcome, e: HubError)
    requires key in Config.Models && !IsModelDownloaded(disk, key)
    requires repo == Err(e) || (repo.Ok? && outcome == Failed(e))
    ensures var t := DownloadTrace(key, disk, repo, polls, outcome);
      && EventStatus(t[|t| - 1]) == Error
      && (e.GatedRepo? ==> EventError(t[|t| - 1]) == Some("This model requires authentication. Please log in to Hugging Face."))
      && (e.RepoNotFound? ==> EventError(t[|t| - 1]) == Some("Model repository not found."))
      && (e.OtherError? ==> EventError(t[|t| - 1]) == Some(e.message))
  {
  }
}
