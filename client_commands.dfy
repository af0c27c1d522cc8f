/**
 * The client's command handling: splitting a typed line into words, choosing
 * the action for a command and its arguments (in the interactive shell and
 * from the process arguments), and the shell's read-dispatch loop.
 */
module ClientCommands {
  import opened Wrappers
  import opened Seqs
  import opened ClientDownload

  /** The characters Python's `str.split()` with no argument splits on. */
  predicate IsSpace(c: char)
  {
    || '\t' <= c <= '\r'
    || '\U{1C}' <= c <= ' '
    || c == '\U{85}' || c == '\U{A0}' || c == '\U{1680}'
    || '\U{2000}' <= c <= '\U{200A}'
    || c == '\U{2028}' || c == '\U{2029}' || c == '\U{202F}' || c == '\U{205F}' || c == '\U{3000}'
  }

  predicate NoSpace(s: string)
  {
    forall k | 0 <= k < |s| :: !IsSpace(s[k])
  }

  predicate Blank(s: string)
  {
    forall k | 0 <= k < |s| :: IsSpace(s[k])
  }

  /** The longest prefix of `s` without whitespace. */
  function Word(s: string): (w: string)
    ensures |w| <= |s| && w == s[..|w|]
    ensures NoSpace(w)
    ensures |w| == |s| || IsSpace(s[|w|])
  {
    if s == [] || IsSpace(s[0]) then [] else [s[0]] + Word(s[1..])
  }

  /** Python's `s.split()`: the maximal runs of non-whitespace, in order. */
  function Tokenize(s: string): (parts: seq<string>)
    decreases |s|
    ensures forall k | 0 <= k < |parts| :: parts[k] != [] && NoSpace(parts[k])
  {
    if s == [] then []
    else if IsSpace(s[0]) then Tokenize(s[1..])
    else
      var w := Word(s);
      [w] + Tokenize(s[|w|..])
  }

  /** A line has no words exactly when it is all whitespace. */
  lemma {:induction false} TokenizeBlank(s: string)
    decreases |s|
    ensures Tokenize(s) == [] <==> Blank(s)
  {
    if s != [] && IsSpace(s[0]) {
      TokenizeBlank(s[1..]);
      assert Blank(s) <==> Blank(s[1..]) by {
        assert forall k | 1 <= k < |s| :: s[k] == s[1..][k - 1];
      }
    }
  }

  /** `s` with its whitespace removed. */
  function WithoutSpaces(s: string): string
  {
    if s == [] then [] else (if IsSpace(s[0]) then [] else [s[0]]) + WithoutSpaces(s[1..])
  }

  lemma {:induction false} WithoutSpacesAppend(w: string, rest: string)
    requires NoSpace(w)
    ensures WithoutSpaces(w + rest) == w + WithoutSpaces(rest)
  {
    if w != [] {
      assert (w + rest)[1..] == w[1..] + rest;
      WithoutSpacesAppend(w[1..], rest);
    } else {
      assert w + rest == rest;
    }
  }

  /** The words, put back together, are the line's non-whitespace characters in order. */
  lemma {:induction false} TokenizeKeepsText(s: string)
    decreases |s|
    ensures Concat(Tokenize(s)) == WithoutSpaces(s)
  {
    if s != [] {
      if IsSpace(s[0]) {
        TokenizeKeepsText(s[1..]);
      } else {
        var w := Word(s);
        var rest := s[|w|..];
        TokenizeKeepsText(rest);
        ConcatCons(w, Tokenize(rest));
        assert s == w + rest;
        WithoutSpacesAppend(w, rest);
      }
    }
  }

  /** A word followed by whitespace or by nothing is read up to its end. */
  lemma {:induction false} WordOf(w: string, rest: string)
    requires NoSpace(w)
    requires rest == [] || IsSpace(rest[0])
    ensures Word(w + rest) == w
  {
    if w == [] {
      assert w + rest == rest;
    } else {
      assert (w + rest)[1..] == w[1..] + rest;
      WordOf(w[1..], rest);
    }
  }

  /**
   * After leading whitespace, the first word is everything up to the next
   * whitespace, and the remaining words are those of what follows it.
   */
  lemma {:induction false} TokenizeFirstWord(ws: string, w: string, rest: string)
    requires Blank(ws) && w != [] && NoSpace(w)
    requires rest == [] || IsSpace(rest[0])
    ensures Tokenize(ws + w + rest) == [w] + Tokenize(rest)
    decreases |ws|
  {
    var s := ws + w + rest;
    if ws == [] {
      assert s == w + rest;
      WordOf(w, rest);
      assert s[|w|..] == rest;
    } else {
      assert s[0] == ws[0];
      assert s[1..] == ws[1..] + w + rest;
      TokenizeFirstWord(ws[1..], w, rest);
    }
  }

  function LowerChar(c: char): char
  {
    if 'A' <= c <= 'Z' then (c as int - 'A' as int + 'a' as int) as char else c
  }

  /** `str.lower()` on the ASCII letters. */
  function Lower(s: string): (r: string)
    ensures |r| == |s|
    ensures forall k | 0 <= k < |s| :: r[k] == LowerChar(s[k])
  {
    if s == [] then [] else [LowerChar(s[0])] + Lower(s[1..])
  }

  datatype Action =
    | Upload(path: string)
    | List
    | Download(fileId: string, outputPath: string)
    | Delete(fileId: string)
    | Web
    | Configure
    | Help
    | Quit
    | Invalid
    | Skip

  /** The commands that take a file path or an id. */
  const NeedsArgument: set<string> := {"upload", "download", "delete"}

  /** The commands that end the shell; as process arguments they are invalid. */
  const ShellOnly: set<string> := {"exit", "quit"}

  /** Every command word the dispatch chain recognises. */
  const Commands: set<string> := NeedsArgument + {"list", "web", "config", "help"} + ShellOnly

  /** The output path `download` uses when none is given. */
  const DefaultOutputPath: string := "."

  /**
   * The dispatch chain shared by the shell and the process arguments: `cmd`
   * is the lower-cased command word and `args` what follows it. `exit` and
   * `quit` are commands of the shell only.
   */
  function Dispatch(cmd: string, args: seq<string>, interactive: bool): (a: Action)
    ensures a.Upload? || a.Download? || a.Delete? <==> cmd in NeedsArgument && |args| >= 1
    ensures a.Upload? ==> cmd == "upload" && a.path == args[0]
    ensures a.Download? ==> cmd == "download" && a.fileId == args[0]
    ensures a.Download? ==> a.outputPath == if |args| >= 2 then args[1] else DefaultOutputPath
    ensures a.Delete? ==> cmd == "delete" && a.fileId == args[0]
    ensures cmd == "list" ==> a == List
    ensures cmd == "web" ==> a == Web
    ensures cmd == "config" ==> a == Configure
    ensures cmd == "help" ==> a == Help
    ensures a == Quit <==> interactive && cmd in ShellOnly
    ensures a != Skip
  {
    if cmd == "upload" && |args| >= 1 then Upload(args[0])
    else if cmd == "list" then List
    else if cmd == "download" && |args| >= 1 then Download(args[0], if |args| >= 2 then args[1] else DefaultOutputPath)
    else if cmd == "delete" && |args| >= 1 then Delete(args[0])
    else if cmd == "web" then Web
    else if cmd == "config" then Configure
    else if cmd == "help" then Help
    else if interactive && cmd in ShellOnly then Quit
    else Invalid
  }

  /**
   * A command is invalid exactly when it is no command word, lacks the
   * argument it needs, or is `exit`/`quit` outside the shell.
   */
  lemma DispatchInvalid(cmd: string, args: seq<string>, interactive: bool)
    ensures Dispatch(cmd, args, interactive) == Invalid <==>
      cmd !in Commands || (cmd in NeedsArgument && args == []) || (!interactive && cmd in ShellOnly)
  {
  }

  /** What the shell does with one typed line; a blank line is skipped. */
  function InteractiveAction(line: string): (a: Action)
    ensures a == Skip <==> Blank(line)
    ensures Tokenize(line) != [] ==> a == Dispatch(Lower(Tokenize(line)[0]), Tokenize(line)[1..], true)
  {
    var parts := Tokenize(line);
    TokenizeBlank(line);
    if parts == [] then Skip else Dispatch(Lower(parts[0]), parts[1..], true)
  }

  /**
   * The command is the first whitespace-delimited word of the line, lower-cased,
   * and its arguments are the words after it.
   */
  lemma InteractiveActionFirstWord(ws: string, w: string, rest: string)
    requires Blank(ws) && w != [] && NoSpace(w)
    requires rest == [] || IsSpace(rest[0])
    ensures InteractiveAction(ws + w + rest) == Dispatch(Lower(w), Tokenize(rest), true)
  {
    TokenizeFirstWord(ws, w, rest);
  }

  /**
   * What a one-shot invocation does with `sys.argv`; None when there is no
   * command, which starts the shell instead.
   */
  function CommandLineAction(argv: seq<string>): (a: Option<Action>)
    ensures a.None? <==> |argv| < 2
    ensures |argv| >= 2 ==> a == Some(Dispatch(Lower(argv[1]), argv[2..], false))
  {
    if |argv| < 2 then None else Some(Dispatch(Lower(argv[1]), argv[2..], false))
  }

  /**
   * Typing a line in the shell and passing its words as arguments choose the
   * same action, except that `exit` and `quit` are invalid as arguments.
   */
  lemma CommandLineMatchesShell(program: string, line: string)
    requires !Blank(line)
    ensures var a := InteractiveAction(line);
            CommandLineAction([program] + Tokenize(line)) == Some(if a == Quit then Invalid else a)
  {
    var parts := Tokenize(line);
    TokenizeBlank(line);
    var argv := [program] + parts;
    assert argv[1] == parts[0] && argv[2..] == parts[1..];
  }

  /** One event of the shell's input: a line, end of input, or an operator interrupt. */
  datatype Input = Line(text: string) | EndOfInput | Interrupt

  /** The two answers typed at the configuration prompt. */
  datatype SetupAnswers = SetupAnswers(serverUrl: string, apiKey: string)

  /** A dispatched action and the configuration it ran with. */
  datatype Dispatched = Dispatched(action: Action, config: Config)

  datatype Session = Session(config: Config, reconfigured: nat, dispatched: seq<Dispatched>, ended: bool)

  function Start(config: Config): Session
  {
    Session(config, 0, [], false)
  }

  /** The configuration `update_config` saves from the k-th answers to the prompt. */
  function Answered(prompt: nat -> SetupAnswers, k: nat): Config
  {
    FirstTimeConfig(prompt(k).serverUrl, prompt(k).apiKey)
  }

  /** Every dispatched action is a real command: blank lines and `exit` are never dispatched. */
  predicate RealCommands(ds: seq<Dispatched>)
  {
    forall k | 0 <= k < |ds| :: ds[k].action != Skip && ds[k].action != Quit
  }

  /**
   * The effect of one typed line's action: a blank line is skipped,
   * `exit`/`quit` end the shell, `config` replaces the configuration with
   * the next answers to the prompt, and every other action (an invalid one
   * too) is dispatched with the configuration in force.
   */
  function HandleLine(s: Session, a: Action, prompt: nat -> SetupAnswers): (r: Session)
    ensures r.ended <==> s.ended || a == Quit
    ensures r.dispatched == s.dispatched + (if a == Skip || a == Quit then [] else [Dispatched(a, s.config)])
    ensures r.reconfigured == s.reconfigured + (if a == Configure then 1 else 0)
    ensures r.config == (if a == Configure then Answered(prompt, s.reconfigured) else s.config)
  {
    if a == Skip then s
    else if a == Quit then s.(ended := true)
    else
      var dispatched := s.dispatched + [Dispatched(a, s.config)];
      if a == Configure then s.(config := Answered(prompt, s.reconfigured), reconfigured := s.reconfigured + 1, dispatched := dispatched)
      else s.(dispatched := dispatched)
  }

  /**
   * One turn of the loop. As written (`endsAtEof` false) end of input is
   * caught like any other error and the loop goes on; the corrected loop
   * (`endsAtEof` true) ends there, as it does on an interrupt.
   */
  function Step(s: Session, e: Input, prompt: nat -> SetupAnswers, endsAtEof: bool): (r: Session)
    ensures s.ended ==> r == s
    ensures e.EndOfInput? && !endsAtEof ==> r == s
    ensures |s.dispatched| <= |r.dispatched| <= |s.dispatched| + 1 && r.dispatched[..|s.dispatched|] == s.dispatched
    ensures r.reconfigured == s.reconfigured || (r.reconfigured == s.reconfigured + 1 && |r.dispatched| == |s.dispatched| + 1)
    ensures r.config == if r.reconfigured == s.reconfigured then s.config else Answered(prompt, s.reconfigured)
    ensures RealCommands(s.dispatched) ==> RealCommands(r.dispatched)
  {
    if s.ended then s
    else
      match e
      case Line(text) =>
        var r := HandleLine(s, InteractiveAction(text), prompt);
        assert r.dispatched[..|s.dispatched|] == s.dispatched;
        r
      case EndOfInput => if endsAtEof then s.(ended := true) else s
      case Interrupt => s.(ended := true)
  }

  /**
   * A turn ends the shell exactly on an interrupt, on `exit` or `quit`, or,
   * in the corrected loop, at end of input; it reconfigures exactly on `config`.
   */
  lemma StepEffects(s: Session, e: Input, prompt: nat -> SetupAnswers, endsAtEof: bool)
    requires !s.ended
    ensures var r := Step(s, e, prompt, endsAtEof);
      && (r.ended <==> e.Interrupt? || (e.EndOfInput? && endsAtEof) || (e.Line? && InteractiveAction(e.text) == Quit))
      && (r.reconfigured == s.reconfigured + 1 <==> e.Line? && InteractiveAction(e.text) == Configure)
  {
  }

  /**
   * The session after the loop has read `events`: the loop as written when
   * `endsAtEof` is false, the corrected one when it is true.
   */
  function Run(events: seq<Input>, initial: Config, prompt: nat -> SetupAnswers, endsAtEof: bool): Session
  {
    if events == [] then Start(initial)
    else Step(Run(events[..|events| - 1], initial, prompt, endsAtEof), events[|events| - 1], prompt, endsAtEof)
  }

  /**
   * At most one action is dispatched per event, every dispatched action is a
   * real command, and each reconfiguration is a dispatched `config`.
   */
  lemma {:induction false} RunCounts(events: seq<Input>, initial: Config, prompt: nat -> SetupAnswers, endsAtEof: bool)
    ensures var r := Run(events, initial, prompt, endsAtEof);
            r.reconfigured <= |r.dispatched| <= |events| && RealCommands(r.dispatched)
  {
    if events != [] {
      RunCounts(events[..|events| - 1], initial, prompt, endsAtEof);
    }
  }

  function Repeat(e: Input, n: nat): (r: seq<Input>)
    ensures |r| == n
  {
    if n == 0 then [] else Repeat(e, n - 1) + [e]
  }

  /**
   * As written, once input is exhausted every further read reports end of
   * input again and the loop neither ends nor changes state: a shell that
   * was not ended before end of input never ends.
   */
  lemma {:induction false} EndOfInputNeverEndsAsWritten(events: seq<Input>, initial: Config, prompt: nat -> SetupAnswers, n: nat)
    requires !Run(events, initial, prompt, false).ended
    ensures Run(events + Repeat(EndOfInput, n), initial, prompt, false) == Run(events, initial, prompt, false)
    ensures !Run(events + Repeat(EndOfInput, n), initial, prompt, false).ended
  {
    if n == 0 {
      assert events + Repeat(EndOfInput, 0) == events;
    } else {
      EndOfInputNeverEndsAsWritten(events, initial, prompt, n - 1);
      var prev := events + Repeat(EndOfInput, n - 1);
      var all := events + Repeat(EndOfInput, n);
      assert all == prev + [EndOfInput];
      assert all[..|all| - 1] == prev;
      assert Run(all, initial, prompt, false) == Step(Run(prev, initial, prompt, false), EndOfInput, prompt, false);
    }
  }

  /** With end of input ending the shell, it ends there whatever came before. */
  lemma EndOfInputEnds(events: seq<Input>, initial: Config, prompt: nat -> SetupAnswers)
    ensures Run(events + [EndOfInput], initial, prompt, true).ended
  {
    var all := events + [EndOfInput];
    assert all[..|all| - 1] == events;
  }

  /** Once the shell has ended, later input changes nothing. */
  lemma {:induction false} RunAfterEnd(events: seq<Input>, i: nat, initial: Config, prompt: nat -> SetupAnswers, endsAtEof: bool)
    requires i <= |events|
    requires Run(events[..i], initial, prompt, endsAtEof).ended
    ensures Run(events, initial, prompt, endsAtEof) == Run(events[..i], initial, prompt, endsAtEof)
    decreases |events| - i
  {
    if i < |events| {
      assert events[..i + 1][..i] == events[..i];
      RunAfterEnd(events, i + 1, initial, prompt, endsAtEof);
    } else {
      assert events[..i] == events;
    }
  }

  /** The configuration in force is the latest answers to the prompt, or the initial one. */
  predicate ConfigFromPrompt(s: Session, initial: Config, prompt: nat -> SetupAnswers)
  {
    s.config == if s.reconfigured == 0 then initial else Answered(prompt, s.reconfigured - 1)
  }

  /** Keeping the configuration, or taking the next answers, keeps it the latest answers. */
  lemma ConfigFromPromptNext(s: Session, r: Session, initial: Config, prompt: nat -> SetupAnswers)
    requires ConfigFromPrompt(s, initial, prompt)
    requires || (r.reconfigured == s.reconfigured && r.config == s.config)
             || (r.reconfigured == s.reconfigured + 1 && r.config == Answered(prompt, s.reconfigured))
    ensures ConfigFromPrompt(r, initial, prompt)
  {
  }

  /**
   * The configuration in force is the initial one until the first `config`
   * command, and afterwards the one saved from the latest answers, whose
   * server URL then has no trailing `/`.
   */
  lemma {:induction false} RunConfig(events: seq<Input>, initial: Config, prompt: nat -> SetupAnswers, endsAtEof: bool)
    ensures ConfigFromPrompt(Run(events, initial, prompt, endsAtEof), initial, prompt)
    ensures var c := Run(events, initial, prompt, endsAtEof);
            c.reconfigured > 0 ==> c.config.serverUrl == [] || c.config.serverUrl[|c.config.serverUrl| - 1] != '/'
  {
    if events != [] {
      RunConfig(events[..|events| - 1], initial, prompt, endsAtEof);
      ConfigFromPromptNext(Run(events[..|events| - 1], initial, prompt, endsAtEof), Run(events, initial, prompt, endsAtEof), initial, prompt);
    }
  }

  /**
   * `interactive_mode` after loading the configuration, as written: read
   * events one at a time, dispatch each line, go on reading after a failed
   * read (end of input included), and leave the loop on `exit`, `quit` or
   * an interrupt.
   */
  method InteractiveMode(initial: Config, events: seq<Input>, prompt: nat -> SetupAnswers) returns (s: Session)
    ensures s == Run(events, initial, prompt, false)
  {
    s := Start(initial);
    var i := 0;
    while i < |events|
      invariant 0 <= i <= |events|
      invariant s == Run(events[..i], initial, prompt, false)
      invariant !s.ended
    {
      assert events[..i + 1][..i] == events[..i];
      match events[i] {
        case Line(text) =>
          var a := InteractiveAction(text);
          if a == Quit {
            s := s.(ended := true);
          } else if a == Configure {
            s := s.(config := Answered(prompt, s.reconfigured), reconfigured := s.reconfigured + 1,
                    dispatched := s.dispatched + [Dispatched(a, s.config)]);
          } else if a != Skip {
            s := s.(dispatched := s.dispatched + [Dispatched(a, s.config)]);
          }
        case EndOfInput =>
        case Interrupt =>
          s := s.(ended := true);
      }
      i := i + 1;
      if s.ended {
        RunAfterEnd(events, i, initial, prompt, false);
        return;
      }
    }
    assert events[..i] == events;
  }
}
