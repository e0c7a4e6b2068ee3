/**
 The log panel of the page: the list `logs` that `log_callback` appends to and
 the placeholder element whose text always shows the most recent lines of it.
 */
module LogView {
  import opened Text

  /** How many of the most recent log lines the panel displays. */
  const Window: nat := 25

  /** `logs[-25:]`: the last `Window` entries, or all of them when there are
      fewer. */
  function Tail(logs: seq<string>): (t: seq<string>)
    ensures |t| == if |logs| < Window then |logs| else Window
    ensures t == logs[|logs| - |t|..]
  {
    if |logs| <= Window then logs else logs[|logs| - Window..]
  }

  /** The text the panel shows: the tail window joined with newlines. It is
      empty for an empty list and otherwise ends with the newest entry. */
  function Display(logs: seq<string>): (shown: string)
    ensures logs == [] ==> shown == ""
    ensures logs != [] ==> EndsWith(shown, logs[|logs| - 1])
  {
    Join(Tail(logs), '\n')
  }

  /** Appending one line slides the window by one: it grows until it is full,
      after which the oldest visible line drops out. */
  lemma TailAppend(logs: seq<string>, msg: string)
    ensures Tail(logs + [msg]) ==
      (if |logs| < Window then logs else Tail(logs)[1..]) + [msg]
  {
    var n := logs + [msg];
    if |logs| >= Window {
      assert n[|n| - Window..] == logs[|logs| - Window + 1..] + [msg];
    }
  }

  /** The newest line is always the end of what the panel shows. */
  lemma DisplayShowsNewest(logs: seq<string>, msg: string)
    ensures EndsWith(Display(logs + [msg]), msg)
  {
    TailAppend(logs, msg);
  }

  /** What the panel shows can be read back line by line: splitting the shown
      text at newlines gives exactly the tail window, provided no entry holds
      a newline itself. */
  lemma DisplayLines(logs: seq<string>)
    requires logs != []
    requires forall i :: 0 <= i < |logs| ==> '\n' !in logs[i]
    ensures SplitOn(Display(logs), '\n') == Tail(logs)
  {
    var t := Tail(logs);
    forall i | 0 <= i < |t| ensures '\n' !in t[i] {
      assert t[i] == logs[|logs| - |t| + i];
    }
    SplitJoin(t, '\n');
  }

  /** The list of log lines of one page run and the placeholder that renders
      it. `log_callback` is `Append`; the final re-render of the page is
      `Render`. */
  class LogPanel {
    var logs: seq<string>
    var shown: string

    /** The placeholder shows the window of the current list. */
    ghost predicate Valid()
      reads this
    {
      shown == Display(logs)
    }

    /** `logs = []` next to an empty placeholder. */
    constructor ()
      ensures Valid()
      ensures logs == []
    {
      logs := [];
      shown := "";
    }

    /** `log_callback(msg)`: append, keeping every earlier entry, then
        re-render the window. */
    method Append(msg: string)
      requires Valid()
      modifies this
      ensures Valid()
      ensures logs == old(logs) + [msg]
    {
      shown := Display(logs + [msg]);
      logs := logs + [msg];
    }

    /** `log_placeholder.text("\n".join(logs[-25:]))` at the end of the page. */
    method Render()
      modifies this
      ensures Valid()
      ensures logs == old(logs)
    {
      shown := Display(logs);
    }
  }
}
