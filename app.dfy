/**
 The decisions `main` takes on each run of the page, with the widgets, the
 file system and the background thread taken as inputs: which files of the
 working directory are offered, which video is used, and whether pressing
 the start button launches a run.
 */
module App {
  import opened Text
  import opened Wrappers
  import opened LogView
  import opened Ffmpeg

  /** The message shown when the start button is pressed without a video or a
      stream key. */
  const MissingInput: string := "Silakan pilih video dan isi stream key terlebih dahulu."

  /** A name ends in one of the four video extensions (case-sensitive): its
      last four characters are one of them. */
  predicate IsVideoName(name: string)
    ensures IsVideoName(name) <==>
      |name| >= 4 && name[|name| - 4..] in {".mp4", ".flv", ".mkv", ".mov"}
  {
    EndsWith(name, ".mp4") || EndsWith(name, ".flv") || EndsWith(name, ".mkv") || EndsWith(name, ".mov")
  }

  /** The dropdown's options: the directory listing filtered to video names. */
  function VideoFiles(listing: seq<string>): (files: seq<string>)
    ensures forall f :: f in files <==> f in listing && IsVideoName(f)
    ensures |files| <= |listing|
  {
    if listing == [] then []
    else
      var rest := VideoFiles(listing[1..]);
      assert forall f :: f in listing <==> f == listing[0] || f in listing[1..];
      if IsVideoName(listing[0]) then [listing[0]] + rest else rest
  }

  /** The filter works entry by entry and keeps the listing's order: filtering
      a concatenation concatenates the filtered parts. */
  lemma {:induction false} VideoFilesAppend(a: seq<string>, b: seq<string>)
    ensures VideoFiles(a + b) == VideoFiles(a) + VideoFiles(b)
    decreases |a|
  {
    if a == [] {
      assert a + b == b;
    } else {
      assert (a + b)[1..] == a[1..] + b;
      VideoFilesAppend(a[1..], b);
    }
  }

  /** Each entry is kept exactly once if it is a video and dropped otherwise. */
  lemma VideoFilesSingle(name: string)
    ensures VideoFiles([name]) == if IsVideoName(name) then [name] else []
  {
  }

  /** The dropdown's value: none when there is nothing to offer, otherwise the
      option at the position the user picked (the first one by default). */
  function SelectedVideo(files: seq<string>, pick: nat): (selected: Option<string>)
    requires files != [] ==> pick < |files|
    ensures selected.Some? <==> files != []
    ensures selected.Some? ==> selected.value in files
  {
    if files == [] then None else Some(files[pick])
  }

  /** The video of this page run: an uploaded file wins; otherwise the
      dropdown's value if it is a non-empty name; otherwise none. */
  function ChooseSource(uploaded: Option<string>, selected: Option<string>): (path: Option<string>)
    ensures uploaded.Some? ==> path == uploaded
    ensures path.Some? <==> uploaded.Some? || (selected.Some? && selected.value != "")
    ensures path.Some? ==> path == uploaded || path == selected
  {
    match uploaded
    case Some(name) => Some(name)
    case None =>
      match selected
      case Some(name) => if name != "" then Some(name) else None
      case None => None
  }

  /** The chosen video is the uploaded file or one of the listed videos. */
  lemma SourceIsUploadOrListedVideo(uploaded: Option<string>, listing: seq<string>, pick: nat)
    requires VideoFiles(listing) != [] ==> pick < |VideoFiles(listing)|
    ensures var path := ChooseSource(uploaded, SelectedVideo(VideoFiles(listing), pick));
      path.Some? ==> path == uploaded || (path.value in listing && IsVideoName(path.value))
  {
  }

  /** Without an upload, a video is chosen whenever the listing offers one
      with a non-empty name at the picked position. */
  lemma ListedVideoChosenWithoutUpload(listing: seq<string>, pick: nat)
    requires pick < |VideoFiles(listing)|
    requires VideoFiles(listing)[pick] != ""
    ensures ChooseSource(None, SelectedVideo(VideoFiles(listing), pick)) == Some(VideoFiles(listing)[pick])
  {
  }

  /** What pressing the start button does. */
  datatype StartOutcome =
    | Rejected(message: string)
    | Launched(videoPath: string, streamKey: string, isShorts: bool)

  /** `if not video_path or not stream_key`: a run starts only with both a
      non-empty path and a non-empty key, and otherwise the message is shown. */
  function OnStart(videoPath: Option<string>, streamKey: string, isShorts: bool): (outcome: StartOutcome)
    ensures outcome.Launched? <==> videoPath.Some? && videoPath.value != "" && streamKey != ""
    ensures outcome.Rejected? ==> outcome.message == MissingInput
    ensures outcome.Launched? ==>
      outcome == Launched(videoPath.value, streamKey, isShorts)
  {
    if videoPath.None? || videoPath.value == "" || streamKey == "" then Rejected(MissingInput)
    else Launched(videoPath.value, streamKey, isShorts)
  }

  /** A launched run streams the chosen video to the given key: the command
      reads that file and pushes to the key's address. */
  lemma LaunchedCommandTargets(videoPath: Option<string>, streamKey: string, isShorts: bool)
    requires OnStart(videoPath, streamKey, isShorts).Launched?
    ensures var cmd := Command(videoPath.value, streamKey, isShorts);
      && cmd[5] == videoPath.value && cmd[5] != ""
      && cmd[|cmd| - 1] == UrlPrefix + streamKey
      && |cmd[|cmd| - 1]| > |UrlPrefix|
  {
    var cmd := Command(videoPath.value, streamKey, isShorts);
    assert cmd[5] == Template(videoPath.value)[5];
  }

  /** The start button's branch of `main`, with the run done in place of the
      background thread: a rejected press leaves the log untouched, a launched
      one appends exactly the run's log. */
  method PressStart(videoPath: Option<string>, streamKey: string, isShorts: bool,
                    output: seq<string>, failure: Option<string>, panel: LogPanel)
    returns (outcome: StartOutcome)
    requires panel.Valid()
    modifies panel
    ensures panel.Valid()
    ensures outcome == OnStart(videoPath, streamKey, isShorts)
    ensures outcome.Rejected? ==> panel.logs == old(panel.logs)
    ensures outcome.Launched? ==>
      panel.logs == old(panel.logs) + RunLog(Command(videoPath.value, streamKey, isShorts), output, failure)
  {
    if videoPath.None? || videoPath.value == "" || streamKey == "" {
      outcome := Rejected(MissingInput);
    } else {
      RunFfmpeg(videoPath.value, streamKey, isShorts, output, failure, panel);
      outcome := Launched(videoPath.value, streamKey, isShorts);
    }
  }
}
