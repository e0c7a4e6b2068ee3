/**
 `run_ffmpeg`: the ffmpeg command line that rebroadcasts a video file to
 YouTube Live, and the lines that a run reports through its log callback.

 The encoder process itself is not modelled: what it writes is an input (the
 lines read from its combined output before it ended), and an exception while
 launching it or reading from it is an optional error message.
 */
module Ffmpeg {
  import opened Text
  import opened Wrappers
  import opened LogView

  const UrlPrefix: string := "rtmp://a.rtmp.youtube.com/live2/"
  /** The scale option string of Shorts mode, before it is split into words. */
  const ScaleOption: string := "-vf scale=720:1280"
  const ScalePair: seq<string> := ["-vf", "scale=720:1280"]
  const HeaderPrefix: string := "Menjalankan: "
  const ErrorPrefix: string := "Error: "
  /** The line that closes every run. */
  const Finished: string := "Streaming selesai atau dihentikan."

  // ---------------------------------------------------------------------------
  // The command line

  /** The destination: the stream key is put after the fixed ingest address
      as it is, with no escaping. */
  function OutputUrl(streamKey: string): (url: string)
    ensures StartsWith(url, UrlPrefix)
    ensures url[|UrlPrefix|..] == streamKey
  {
    UrlPrefix + streamKey
  }

  /** The 26 fixed arguments: loop the input forever, H.264 at 2500k with a
      60-frame keyframe interval, AAC at 128k, FLV container. */
  function Template(videoPath: string): (t: seq<string>)
    ensures |t| == 26
    ensures t[..5] == ["ffmpeg", "-re", "-stream_loop", "-1", "-i"]
    ensures t[5] == videoPath
  {
    [ "ffmpeg", "-re", "-stream_loop", "-1", "-i", videoPath,
      "-c:v", "libx264", "-preset", "veryfast", "-b:v", "2500k",
      "-maxrate", "2500k", "-bufsize", "5000k",
      "-g", "60", "-keyint_min", "60",
      "-c:a", "aac", "-b:a", "128k",
      "-f", "flv" ]
  }

  /** The argument vector of a run, as a whole: the template, the scale pair
      in Shorts mode, and the destination last. */
  function Command(videoPath: string, streamKey: string, isShorts: bool): (cmd: seq<string>)
    ensures |cmd| == if isShorts then 29 else 27
    ensures cmd[..26] == Template(videoPath)
    ensures cmd[|cmd| - 1] == OutputUrl(streamKey)
    ensures isShorts ==> cmd[26..28] == ScalePair
  {
    Template(videoPath) + (if isShorts then ScalePair else []) + [OutputUrl(streamKey)]
  }

  /** The option string of Shorts mode splits into exactly the scale pair. */
  lemma ScaleOptionWords()
    ensures Words(ScaleOption) == ScalePair
  {
    PrintableWord("-vf");
    PrintableWord("scale=720:1280");
    var s := ScaleOption;
    assert s[..3] == "-vf" && s[3] == ' ' && s[4..] == "scale=720:1280";
    assert s == s[..3] + ([s[3]] + s[4..]);
    WordsOfTwo(s[..3], s[3], s[4..]);
  }

  /** Visible ASCII characters are not whitespace. */
  lemma PrintableWord(w: string)
    requires w != []
    requires forall k :: 0 <= k < |w| ==> '!' <= w[k] <= '~'
    ensures IsWord(w)
  {
  }

  /** Builds `cmd` the way `run_ffmpeg` does: the template, then
      `cmd += scale.split()` when the scale string is not empty, then the
      destination appended. */
  method BuildCommand(videoPath: string, streamKey: string, isShorts: bool) returns (cmd: seq<string>)
    ensures cmd == Command(videoPath, streamKey, isShorts)
  {
    var outputUrl := UrlPrefix + streamKey;
    var scale := if isShorts then ScaleOption else "";
    cmd := Template(videoPath);
    if scale != "" {
      ScaleOptionWords();
      cmd := cmd + Words(scale);
    }
    cmd := cmd + [outputUrl];
  }

  /** The pair `-vf scale=720:1280` stands somewhere in `cmd`. */
  predicate HasScalePair(cmd: seq<string>) {
    exists i :: 0 <= i < |cmd| - 1 && cmd[i] == "-vf" && cmd[i + 1] == "scale=720:1280"
  }

  /** The scale filter is in the command exactly in Shorts mode, whatever the
      path and the key are. */
  lemma ScalePairIffShorts(videoPath: string, streamKey: string, isShorts: bool)
    ensures HasScalePair(Command(videoPath, streamKey, isShorts)) <==> isShorts
  {
    var cmd := Command(videoPath, streamKey, isShorts);
    if isShorts {
      assert cmd[26] == "-vf" && cmd[27] == "scale=720:1280";
    } else {
      var t := Template(videoPath);
      assert cmd == t + [OutputUrl(streamKey)];
      forall i | 0 <= i < |cmd| - 1
        ensures !(cmd[i] == "-vf" && cmd[i + 1] == "scale=720:1280")
      {
        if i == 25 {
          assert cmd[i + 1] == OutputUrl(streamKey);
          assert OutputUrl(streamKey)[0] == 'r';
        } else if i == 4 || i == 5 {
          assert cmd[i] == t[i] && cmd[i + 1] == t[i + 1];
        } else {
          assert cmd[i] == t[i];
        }
      }
    }
  }

  /** Only the video path depends on the inputs among the first 26
      arguments. */
  lemma TemplateIgnoresInputs(a: string, b: string, i: nat)
    requires i < 26 && i != 5
    ensures Template(a)[i] == Template(b)[i]
  {
  }

  // ---------------------------------------------------------------------------
  // The log of a run

  /** The first log line, echoing the command joined with spaces. */
  function Header(cmd: seq<string>): (h: string)
    ensures StartsWith(h, HeaderPrefix)
  {
    HeaderPrefix + Join(cmd, ' ')
  }

  /** Each output line as it is logged, `line.strip()`, in order. */
  function StripAll(lines: seq<string>): (r: seq<string>)
    ensures |r| == |lines|
    ensures forall i :: 0 <= i < |lines| ==> r[i] == Strip(lines[i])
  {
    seq(|lines|, i requires 0 <= i < |lines| => Strip(lines[i]))
  }

  lemma StripAllExtend(lines: seq<string>, i: nat)
    requires i < |lines|
    ensures StripAll(lines[..i + 1]) == StripAll(lines[..i]) + [Strip(lines[i])]
  {
    var a, b := StripAll(lines[..i + 1]), StripAll(lines[..i]) + [Strip(lines[i])];
    assert |a| == |b|;
    forall k | 0 <= k < |a| ensures a[k] == b[k] {
      assert lines[..i + 1][k] == lines[k];
    }
  }

  /** `log_callback(f"Error: {e}")`: one line when something was raised,
      carrying the exception's text verbatim after the prefix, else none. */
  function ErrorLines(failure: Option<string>): (lines: seq<string>)
    ensures |lines| == if failure.Some? then 1 else 0
    ensures failure.Some? ==>
      StartsWith(lines[0], ErrorPrefix) && lines[0][|ErrorPrefix|..] == failure.value
  {
    match failure
    case None => []
    case Some(msg) => [ErrorPrefix + msg]
  }

  /** Everything one run passes to its log callback, in order: the header, the
      encoder's output lines stripped, the error if one was raised, and the
      closing line, which the `finally` clause always adds. */
  function RunLog(cmd: seq<string>, output: seq<string>, failure: Option<string>): (log: seq<string>)
    ensures |log| == |output| + |ErrorLines(failure)| + 2
    ensures log[0] == Header(cmd) && log[|log| - 1] == Finished
    ensures log[1..|output| + 1] == StripAll(output)
  {
    var s := StripAll(output);
    var log := [Header(cmd)] + s + ErrorLines(failure) + [Finished];
    assert log[1..|output| + 1] == s;
    log
  }

  /** The header comes first, the error (when there is one) just before the
      closing line, and the closing line last; nothing else is added to the
      encoder's lines. */
  lemma RunLogShape(cmd: seq<string>, output: seq<string>, failure: Option<string>)
    ensures |RunLog(cmd, output, failure)| == |output| + (if failure.Some? then 3 else 2)
    ensures RunLog(cmd, output, failure)[0] == Header(cmd)
    ensures failure.Some? ==>
      RunLog(cmd, output, failure)[|output| + 1] == ErrorPrefix + failure.value
    ensures RunLog(cmd, output, failure)[|RunLog(cmd, output, failure)| - 1] == Finished
  {
  }

  /** The i-th line the encoder wrote is logged, stripped, at position 1 + i:
      lines are relayed one for one and in the order they were written. */
  lemma RunLogRelaysOutput(cmd: seq<string>, output: seq<string>, failure: Option<string>, i: nat)
    requires i < |output|
    ensures RunLog(cmd, output, failure)[1 + i] == Strip(output[i])
  {
  }

  /** Apart from the encoder's own lines, the closing line occurs exactly once,
      at the end, and a line starting with `Error: ` occurs only when the run
      failed, and then once, just before the closing line. */
  lemma RunLogMarkers(cmd: seq<string>, output: seq<string>, failure: Option<string>)
    ensures var log := RunLog(cmd, output, failure);
      forall i :: 0 <= i < |log| && !(1 <= i <= |output|) ==>
        && (log[i] == Finished <==> i == |log| - 1)
        && (StartsWith(log[i], ErrorPrefix) <==> failure.Some? && i == |log| - 2)
  {
    var log := RunLog(cmd, output, failure);
    var h := Header(cmd);
    assert h[0] == 'M';
    assert !StartsWith(h, ErrorPrefix) by {
      if |ErrorPrefix| <= |h| { assert h[..|ErrorPrefix|][0] == 'M'; }
    }
    assert h != Finished by { assert Finished[0] == 'S'; }
    assert !StartsWith(Finished, ErrorPrefix) by {
      assert Finished[..|ErrorPrefix|][0] == 'S';
    }
    if failure.Some? {
      var e := ErrorPrefix + failure.value;
      assert e != Finished by { assert e[0] == 'E'; }
      assert StartsWith(e, ErrorPrefix) by { assert e[..|ErrorPrefix|] == ErrorPrefix; }
    }
  }

  /** The closing line occurs once more than the encoder itself printed it;
      so exactly once when the encoder never prints it. */
  lemma FinishedCount(cmd: seq<string>, output: seq<string>, failure: Option<string>)
    ensures multiset(RunLog(cmd, output, failure))[Finished]
         == 1 + multiset(StripAll(output))[Finished]
  {
    var h := Header(cmd);
    assert h != Finished by { assert h[0] == 'M'; assert Finished[0] == 'S'; }
    if failure.Some? {
      var e := ErrorPrefix + failure.value;
      assert e != Finished by { assert e[0] == 'E'; }
    }
  }

  /** The header can be read back into the command when no argument holds a
      space. */
  lemma HeaderEchoesCommand(cmd: seq<string>)
    requires cmd != []
    requires forall i :: 0 <= i < |cmd| ==> ' ' !in cmd[i]
    ensures SplitOn(Header(cmd)[|HeaderPrefix|..], ' ') == cmd
  {
    assert Header(cmd)[|HeaderPrefix|..] == Join(cmd, ' ');
    SplitJoin(cmd, ' ');
  }

  /** Every fixed argument is free of spaces, so the header of a run
      echoes its command exactly when the path and the key have no space. */
  lemma CommandEchoed(videoPath: string, streamKey: string, isShorts: bool)
    requires ' ' !in videoPath && ' ' !in streamKey
    ensures SplitOn(Header(Command(videoPath, streamKey, isShorts))[|HeaderPrefix|..], ' ')
         == Command(videoPath, streamKey, isShorts)
  {
    var cmd := Command(videoPath, streamKey, isShorts);
    TemplateHasNoSpaces(videoPath);
    forall i | 0 <= i < |cmd| ensures ' ' !in cmd[i] {
      if i < 26 {
        assert cmd[i] == Template(videoPath)[i];
      } else if i == |cmd| - 1 {
        assert cmd[i] == UrlPrefix + streamKey;
      } else {
        assert cmd[i] in ScalePair;
      }
    }
    HeaderEchoesCommand(cmd);
  }

  lemma TemplateHasNoSpaces(videoPath: string)
    requires ' ' !in videoPath
    ensures forall i :: 0 <= i < 26 ==> ' ' !in Template(videoPath)[i]
  {
  }

  /** A line read from the encoder loses its line break, and nothing else
      when it has no other surrounding whitespace. */
  lemma StripNewline(w: string)
    requires w == [] || (!IsSpace(w[0]) && !IsSpace(w[|w| - 1]))
    ensures Strip(w + "\n") == w
  {
    assert [] + w + "\n" == w + "\n";
    StripPadded([], w, "\n");
  }

  /** A launch that fails leaves the header, one error line and the closing
      line. */
  lemma LaunchFailure(cmd: seq<string>, msg: string)
    ensures RunLog(cmd, [], Some(msg)) == [Header(cmd), ErrorPrefix + msg, Finished]
  {
  }

  // ---------------------------------------------------------------------------
  // The run

  lemma RunLogAfter(before: seq<string>, cmd: seq<string>, output: seq<string>, failure: Option<string>)
    ensures before + RunLog(cmd, output, failure)
         == before + [Header(cmd)] + StripAll(output) + ErrorLines(failure) + [Finished]
  {
    var h, s, e := Header(cmd), StripAll(output), ErrorLines(failure);
    assert RunLog(cmd, output, failure) == [h] + s + e + [Finished];
    ConcatAssoc(before, [h], s, e, [Finished]);
  }

  /** `for line in process.stdout: log_callback(line.strip())`: every line
      the encoder wrote, stripped, in the order it was written. */
  method RelayOutput(output: seq<string>, panel: LogPanel)
    requires panel.Valid()
    modifies panel
    ensures panel.Valid()
    ensures panel.logs == old(panel.logs) + StripAll(output)
  {
    ghost var before := panel.logs;
    var i := 0;
    assert StripAll(output[..0]) == [];
    assert panel.logs == before + StripAll(output[..0]);
    while i < |output|
      invariant 0 <= i <= |output|
      invariant panel.Valid()
      invariant panel.logs == before + StripAll(output[..i])
    {
      panel.Append(Strip(output[i]));
      StripAllExtend(output, i);
      AppendAssoc(before, StripAll(output[..i]), [Strip(output[i])]);
      i := i + 1;
    }
    assert output[..i] == output;
  }

  /** `run_ffmpeg(video_path, stream_key, is_shorts, log_callback)` with the
      panel's `Append` as the callback, taken from launch to the point where
      the encoder's output has ended or something was raised: the closing line
      is then last, and no exception from launching or reading escapes it.
      The callback itself is taken never to raise. */
  method RunFfmpeg(videoPath: string, streamKey: string, isShorts: bool,
                   output: seq<string>, failure: Option<string>, panel: LogPanel)
    requires panel.Valid()
    modifies panel
    ensures panel.Valid()
    ensures panel.logs == old(panel.logs) + RunLog(Command(videoPath, streamKey, isShorts), output, failure)
  {
    ghost var before := panel.logs;
    var cmd := BuildCommand(videoPath, streamKey, isShorts);
    panel.Append(HeaderPrefix + Join(cmd, ' '));
    RelayOutput(output, panel);
    ghost var relayed := panel.logs;
    if failure.Some? {
      panel.Append(ErrorPrefix + failure.value);
    }
    assert panel.logs == relayed + ErrorLines(failure);
    panel.Append(Finished);
    RunLogAfter(before, cmd, output, failure);
  }
}
