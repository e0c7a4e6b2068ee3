# YouTube Live rebroadcast tool: a Dafny model of its core

The tool is a one-page web app (`ngng.py`). The user picks a video from the
working directory or uploads one, enters a YouTube stream key and, if wanted,
ticks "Shorts mode". Pressing start runs ffmpeg on a background thread. ffmpeg
loops the video forever and pushes it over RTMP to YouTube's ingest address.
Every line ffmpeg prints is passed to a log callback that feeds a log panel,
which shows the 25 most recent lines.

This project models the deterministic parts of that program and proves what
they promise:

- `ffmpeg.dfy` (module `Ffmpeg`) models `run_ffmpeg`. It has the argument
  vector as a whole (`Command`) and the way the code builds it (`BuildCommand`:
  a 26-argument template, then `scale.split()` in Shorts mode, then the
  destination). It also has the sequence of lines a run reports (`RunLog`)
  and the run itself (`RunFfmpeg`, with the read loop in `RelayOutput`). The
  encoder process is an input here: `output` is the lines read from its
  combined stdout/stderr before it ended, and `failure` is the text of an
  exception raised while launching or reading, if there was one.
- `log_view.dfy` (module `LogView`) models `log_callback` and the log
  placeholder as the class `LogPanel`. It has the list `logs`, which is only
  ever appended to, and the shown text, which is always
  `"\n".join(logs[-25:])`.
- `app.dfy` (module `App`) models the decisions `main` takes on each page run:
  - the extension filter over the directory listing;
  - the dropdown value;
  - the rule that an upload wins over the dropdown;
  - the start guard, and the start button's branch (`PressStart`).
- `text.dfy` (module `Text`) writes out the Python string operations these
  rely on, with their whitespace set: `str.strip()`, `str.split()`,
  `str.split(sep)`, `sep.join(...)` and `str.endswith`.
- `wrappers.dfy` holds the `Option` type.

The log list is per page run: `main` sets `logs = []` each time Streamlit
re-executes the script. A run's thread keeps appending to the list, and the
placeholder, of the page run that started it. The model gives each run the
`LogPanel` it was started with.

## Model

| member | source | states |
|---|---|---|
| Ffmpeg.OutputUrl | ngng.py:24 | the destination starts with `rtmp://a.rtmp.youtube.com/live2/` and the rest of it is the stream key, character for character (no escaping) |
| Ffmpeg.Template | ngng.py:26-33 | the fixed part has 26 arguments, starts `ffmpeg -re -stream_loop -1 -i`, and has the video path at index 5 |
| Ffmpeg.TemplateIgnoresInputs | ngng.py:26-33 | every template argument other than index 5 is the same whatever the video path |
| Ffmpeg.Command | ngng.py:24-36 | the argument vector has 29 entries in Shorts mode and 27 otherwise; the template comes first; in Shorts mode `-vf scale=720:1280` sits at 26-27, just before the URL; the URL is always last |
| Ffmpeg.ScaleOptionWords | ngng.py:25 | `"-vf scale=720:1280".split()` is exactly the two words `-vf` and `scale=720:1280` |
| Ffmpeg.BuildCommand | ngng.py:24-36 | building the list as `run_ffmpeg` does (template, `cmd += scale.split()` only when the scale string is non-empty, `append(output_url)`) yields exactly `Command` |
| Ffmpeg.ScalePairIffShorts | ngng.py:25-36 | the pair `-vf`, `scale=720:1280` occurs (adjacent, anywhere) in the command if and only if Shorts mode is on, for every path and key |
| Ffmpeg.Header | ngng.py:38 | the first log line starts with `Menjalankan: ` |
| Ffmpeg.HeaderEchoesCommand | ngng.py:38 | splitting the header after its prefix at spaces gives back the command, when no argument contains a space |
| Ffmpeg.CommandEchoed | ngng.py:24-38 | every fixed argument is free of spaces, so a run's header reproduces its exact command whenever the path and the key contain no space |
| Ffmpeg.StripAll | ngng.py:41-42 | the relayed lines are the output lines one for one, in order, each `strip()`ped |
| Ffmpeg.StripNewline | ngng.py:41-42 | a line read with its trailing newline is logged without it and otherwise unchanged, provided the line has no other whitespace at its start or end (an indented line such as `  Duration: …` also loses its indent) |
| Ffmpeg.ErrorLines | ngng.py:44-45 | a raised exception gives exactly one log line, `Error: ` followed by the exception's text verbatim; no exception gives none |
| Ffmpeg.RunLog | ngng.py:38-47 | everything a finished run logs: its length is the output count plus 2 plus the error lines, the header is first, the output lines stripped fill positions 1 to the output count, and the closing line is last |
| Ffmpeg.RunLogShape | ngng.py:38-47 | a run logs the header first, `Error: ` + message just before the end if it failed, and `Streaming selesai atau dihentikan.` last; its length is the output count plus 2, or plus 3 on failure |
| Ffmpeg.RunLogRelaysOutput | ngng.py:41-42 | output line i is logged, stripped, at position 1 + i, so the lines keep the order in which the encoder wrote them |
| Ffmpeg.RunLogMarkers | ngng.py:38-47 | outside the encoder's own lines, the closing line is only at the end, and a line starting with `Error: ` appears only on failure, once, just before the closing line |
| Ffmpeg.FinishedCount | ngng.py:47 | the closing line occurs exactly once more than the encoder itself printed it, so exactly once in a normal run |
| Ffmpeg.LaunchFailure | ngng.py:39-47 | a launch that raises logs exactly the header, one `Error: ` line and the closing line |
| Ffmpeg.RelayOutput | ngng.py:41-42 | the read loop appends the stripped output lines, in order, to what was already logged |
| Ffmpeg.RunFfmpeg | ngng.py:23-47 | once the encoder's output has ended (or launching or reading it raised), the run has appended exactly `RunLog(Command(...), output, failure)` to the log; no exception from launching or reading escapes it |
| Text.LeadingSpaces | ngng.py:42 | the whitespace `strip()` skips at the front is a maximal leading run of whitespace |
| Text.TrailingEnd | ngng.py:42 | the whitespace `strip()` cuts at the back is a maximal trailing run of whitespace, never reaching into what the front scan kept |
| Text.Strip | ngng.py:42 | `strip()` returns the slice of its input that starts after the leading whitespace; only whitespace is cut on either side, and the result neither starts nor ends with whitespace |
| Text.StripPadded | ngng.py:42 | `strip()` of whitespace + s + whitespace is s whenever s has no whitespace at either end; together with `Text.Strip` this pins the result down completely |
| Text.StripIdempotent | ngng.py:42 | stripping an already stripped line changes nothing |
| Text.Words | ngng.py:35 | `split()` yields non-empty words without whitespace, and nothing exactly when the string is all whitespace |
| Text.WordsJoin | ngng.py:35 | `split()` undoes joining words with a whitespace character |
| Text.Join | ngng.py:38 | a join ends with its last piece |
| Text.SplitOn | ngng.py:90 | `split(sep)`, used to read the shown text back line by line: at least one piece, and no piece contains the separator |
| Text.SplitJoin | ngng.py:90 | `split(sep)` undoes `sep.join(parts)` when no part contains the separator |
| LogView.Tail | ngng.py:90 | `logs[-25:]` has `min(25, n)` entries and is the end of the list |
| LogView.Display | ngng.py:90 | the panel's text (`"\n".join(logs[-25:])`) is empty for an empty list and otherwise ends with the newest entry |
| LogView.TailAppend | ngng.py:88-90 | after an append the window grows by one until it holds 25 lines, then drops its oldest line and gains the new one |
| LogView.DisplayShowsNewest | ngng.py:88-90 | right after an append the panel's text ends with the appended line |
| LogView.DisplayLines | ngng.py:90 | the panel's text, split at newlines, gives back exactly the window, when no entry contains a newline |
| LogView.LogPanel.constructor | ngng.py:85-86 | a fresh panel has an empty list and shows nothing |
| LogView.LogPanel.Append | ngng.py:88-90 | `log_callback` appends the message and keeps every earlier entry; the panel then shows the window of the new list |
| LogView.LogPanel.Render | ngng.py:108 | the final render leaves the list unchanged and shows its window |
| App.IsVideoName | ngng.py:68 | `endswith((".mp4", ".flv", ".mkv", ".mov"))` holds exactly when the last four characters are one of those extensions |
| App.VideoFiles | ngng.py:68 | a name is offered if and only if it is in the listing and ends in `.mp4`, `.flv`, `.mkv` or `.mov` |
| App.VideoFilesAppend | ngng.py:68 | the filter keeps the listing's order: filtering a concatenation concatenates the filtered parts |
| App.VideoFilesSingle | ngng.py:68 | a single entry is kept, once, exactly when it is a video name; with `App.VideoFilesAppend` this fixes the offered list entry by entry, in order and with multiplicity |
| App.SelectedVideo | ngng.py:69 | the dropdown's value is none exactly when no video is offered, and otherwise is one of the offered videos |
| App.ChooseSource | ngng.py:72-80 | an upload always wins; a path is chosen if and only if there is an upload or a non-empty dropdown value; the path is one of those two |
| App.SourceIsUploadOrListedVideo | ngng.py:68-80 | the chosen path is the uploaded file's name or a video name from the listing |
| App.ListedVideoChosenWithoutUpload | ngng.py:69-80 | without an upload, the picked non-empty video is the chosen path |
| App.OnStart | ngng.py:95-101 | a run is launched if and only if the path and the key are both non-empty, with exactly those inputs; otherwise the fixed message is shown |
| App.LaunchedCommandTargets | ngng.py:96-101 | a launched run's command reads the chosen (non-empty) path and pushes to the ingest address followed by a non-empty key |
| App.PressStart | ngng.py:95-102 | a rejected press leaves the log as it was; a launched one appends exactly that run's log |

## Left out

- Ffmpeg.RunFfmpeg: `log_callback` (and so `LogPanel.Append`) is assumed never to raise, although it updates a page element from the worker thread (ngng.py:90). If it raised at the header (ngng.py:38, outside the `try`), the run would stop before launching ffmpeg, with only the header logged. A raise inside the read loop (ngng.py:41-42) would be caught by the `except` and logged as an `Error: ` line, whose own callback (ngng.py:45) could raise in turn. In the `finally` (ngng.py:47), it would escape `run_ffmpeg`. None of these paths is modelled.
- A run that is still streaming is not modelled. With `-stream_loop -1` (ngng.py:27) ffmpeg only stops when it is killed (ngng.py:105) or fails, so `run_ffmpeg` returns only then. The model covers runs whose output has ended; it says nothing about what the log holds at each moment while a run goes on, beyond the append-only `LogView.LogPanel.Append`.
- Launching ffmpeg, reading its stdout and `process.wait()` (ngng.py:40-43) are process I/O. The model takes the lines the process wrote and an optional error text as inputs. How these lines are cut is left out: Python splits on universal newlines.
- The exception's text (`str(e)`) is an input string. The model does not say which exceptions can occur.
- The stop button's `os.system("pkill ffmpeg")` (ngng.py:104-106) kills processes on the whole host and has no result the program looks at. It is not modelled.
- The background thread and `st.session_state` (ngng.py:92-101) are left out. `PressStart` runs the whole run in place. It does not model appends that interleave with the rest of the page run, or with the render at ngng.py:108.
- Runs are not prevented from overlapping. Nothing models two runs appending to the same list.
- Streamlit widgets, the advertisement HTML, page configuration and the success/warning banners (ngng.py:51-65, 69-71, 77, 82-85, 102, 106) are UI. Their values are parameters: the dropdown's pick, the upload's name, the key and the Shorts flag.
- Writing `~/.streamlit/config.toml` (ngng.py:17-20), saving uploaded bytes (ngng.py:75-76) and the `pip install` fallback (ngng.py:8-12) are file and package side effects. They are not modelled.
- `os.listdir('.')` is a parameter of `App.VideoFiles`. Its order is whatever the listing gives.
