/**
 * The part of the POSIX shell that the durable startup scripts rely on: token
 * recognition with backslash and single-quote quoting (IEEE Std 1003.1-2017,
 * XCU 2.2.1, 2.2.2 and 2.3), the built-ins `set -e`, `export`, `cd` and
 * `exec`, and the utility `su`.
 *
 * A `string` stands for a sequence of bytes.  Everything the shell would treat
 * specially outside quotes, and the renderer never means to write there, is
 * refused: such a script has no outcome in this model.
 */
module Shell {
  import opened GoStrings
  import opened Results

  // ---------- Token recognition ----------

  /** Where the reader stands.  `Escaped` follows a backslash. */
  datatype Mode = Between | Word | Quoted | Escaped(inWord: bool) | Comment

  type Line = seq<string>
  type Env = map<string, string>

  /** Characters whose unquoted meaning is outside this model. */
  predicate Special(c: char)
  {
    c == '|' || c == '&' || c == ';' || c == '<' || c == '>' || c == '(' || c == ')' ||
    c == '$' || c == '`' || c == '"' || c == '*' || c == '?' || c == '[' || c == '~'
  }

  predicate Blank(c: char)
  {
    c == ' ' || c == '\t'
  }

  /** Characters that simply extend an unquoted word. */
  predicate Plain(c: char)
  {
    !Special(c) && !Blank(c) && c != '\n' && c != '\'' && c != '\\' && c != '#' && c != '\0'
  }

  /** Puts a finished command line in front of the lines read after it. */
  function Emit(line: Line, rest: Option<seq<Line>>): Option<seq<Line>>
  {
    if rest.None? then None
    else if line == [] then rest
    else Some([line] + rest.value)
  }

  /** One step of the reader: go on with a new position, end the line, or refuse the script. */
  datatype Action = Go(mode: Mode, cur: string, words: Line) | EndLine(line: Line) | Refuse

  function Read(c: char, mode: Mode, cur: string, words: Line): Action
  {
    if c == '\0' then Refuse else
    match mode
    case Comment =>
      if c == '\n' then EndLine(words) else Go(Comment, cur, words)
    case Quoted =>
      if c == '\'' then Go(Word, cur, words) else Go(Quoted, cur + [c], words)
    case Escaped(inWord) =>
      if c == '\n' then Go(if inWord then Word else Between, cur, words) else Go(Word, cur + [c], words)
    case Between =>
      if c == '\n' then EndLine(words)
      else if Blank(c) then Go(Between, "", words)
      else if c == '#' then Go(Comment, "", words)
      else if c == '\'' then Go(Quoted, "", words)
      else if c == '\\' then Go(Escaped(false), "", words)
      else if Special(c) then Refuse
      else Go(Word, [c], words)
    case Word =>
      if c == '\n' then EndLine(words + [cur])
      else if Blank(c) then Go(Between, "", words + [cur])
      else if c == '\'' then Go(Quoted, cur, words)
      else if c == '\\' then Go(Escaped(true), cur, words)
      else if Special(c) then Refuse
      else Go(Word, cur + [c], words)
  }

  /** At the end of the text an open quote or escape is an error. */
  function AtEnd(mode: Mode, cur: string, words: Line): Option<seq<Line>>
  {
    match mode
    case Quoted => None
    case Escaped(_) => None
    case Word => Some([words + [cur]])
    case _ => Emit(words, Some([]))
  }

  /** Reads `s` from the given mode, with `cur` the word and `words` the line under way. */
  function Lex(s: string, mode: Mode, cur: string, words: Line): Option<seq<Line>>
    decreases |s|
  {
    if s == "" then AtEnd(mode, cur, words)
    else
      match Read(s[0], mode, cur, words)
      case Refuse => None
      case EndLine(line) => Emit(line, Lex(s[1..], Between, "", []))
      case Go(m, c, ws) => Lex(s[1..], m, c, ws)
  }

  /** One step, on a text put together from a character and a tail. */
  lemma LexStep(c: char, tail: string, mode: Mode, cur: string, words: Line)
    ensures Read(c, mode, cur, words).Refuse? ==> Lex([c] + tail, mode, cur, words) == None
    ensures forall m, w, ws :: Read(c, mode, cur, words) == Go(m, w, ws) ==>
      Lex([c] + tail, mode, cur, words) == Lex(tail, m, w, ws)
    ensures forall line :: Read(c, mode, cur, words) == EndLine(line) ==>
      Lex([c] + tail, mode, cur, words) == Emit(line, Lex(tail, Between, "", []))
  {
    assert ([c] + tail)[1..] == tail;
  }

  /** The command lines of a whole script. */
  function Parse(text: string): Option<seq<Line>>
  {
    Lex(text, Between, "", [])
  }

  /** A script holding a NUL byte is not a text file, and is refused wherever the byte stands. */
  lemma {:induction false} LexRefusesNul(s: string, mode: Mode, cur: string, words: Line)
    requires '\0' in s
    ensures Lex(s, mode, cur, words) == None
    decreases |s|
  {
    if s[0] != '\0' {
      assert '\0' in s[1..];
      forall m: Mode, c: string, ws: Line
        ensures Lex(s[1..], m, c, ws) == None
      {
        LexRefusesNul(s[1..], m, c, ws);
      }
    }
  }

  // ---------- Execution ----------

  /** A running shell. */
  datatype State = State(env: Env, cwd: string, user: string, errexit: bool)

  /**
   * What the script cannot decide: `enter(user, env, cwd, dir)` is the directory reached by
   * changing to `dir`, and `su(from, env, to)` the environment that a switch of user starts
   * with.  `None` means the operation fails.
   */
  datatype World = World(
    enter: (string, Env, string, string) -> Option<string>,
    su: (string, Env, string) -> Option<Env>)

  /**
   * How a script ends: it replaces itself with a program, it exits with a failure, it runs off
   * its end without having started a program, or it leaves the modelled part of the shell.
   */
  datatype Outcome =
    | Execed(argv: seq<string>, env: Env, cwd: string, user: string)
    | Failed
    | Finished
    | Unspecified

  datatype Step = Continue(state: State) | Stop(outcome: Outcome)

  predicate NameStart(c: char)
  {
    'a' <= c <= 'z' || 'A' <= c <= 'Z' || c == '_'
  }

  predicate NameChar(c: char)
  {
    NameStart(c) || '0' <= c <= '9'
  }

  /** A name in the sense of XBD 3.235. */
  predicate Name(s: string)
  {
    s != "" && NameStart(s[0]) && forall i :: 0 <= i < |s| ==> NameChar(s[i])
  }

  /** `export` over its operands, each `name=value` or `name`; a bad name ends the shell (XCU 2.8.1). */
  function Export(operands: Line, st: State): Step
  {
    if operands == [] then Continue(st)
    else
      var op, eq := operands[0], IndexOf(operands[0], '=');
      var name := if eq == -1 then op else op[..eq];
      if !Name(name) then Stop(Failed)
      else if eq == -1 then Export(operands[1..], st)
      else Export(operands[1..], st.(env := st.env[name := op[eq + 1..]]))
  }

  /** `cd dir` for one operand that is not an option; sets OLDPWD and PWD. */
  function Cd(dir: string, st: State, w: World): Step
  {
    match w.enter(st.user, st.env, st.cwd, dir)
    case None => if st.errexit then Stop(Failed) else Continue(st)
    case Some(to) => Continue(st.(env := st.env["OLDPWD" := st.cwd]["PWD" := to], cwd := to))
  }

  /** An operand the Utility Syntax Guidelines (XBD 12.2) read as an option. */
  predicate OptionLike(s: string)
  {
    2 <= |s| && s[0] == '-'
  }

  /** `exec`: a leading `--` ends the options, any other option is a usage error. */
  function Exec(operands: Line, st: State): Step
  {
    if operands == [] || operands == ["--"] then Continue(st)
    else if operands[0] == "--" then Stop(Execed(operands[1..], st.env, st.cwd, st.user))
    else if OptionLike(operands[0]) then Stop(Failed)
    else Stop(Execed(operands, st.env, st.cwd, st.user))
  }

  function RunLine(line: Line, st: State, w: World): Step
  {
    if line == ["set", "-e"] then Continue(st.(errexit := true))
    else if |line| >= 2 && line[0] == "export" && line[1] != "" && line[1][0] != '-' then Export(line[1..], st)
    else if |line| == 2 && line[0] == "cd" && line[1] != "" && line[1][0] != '-' then Cd(line[1], st, w)
    else if |line| >= 1 && line[0] == "exec" then Exec(line[1..], st)
    else Stop(Unspecified)
  }

  function RunLines(lines: seq<Line>, st: State, w: World): Outcome
  {
    if lines == [] then Finished
    else
      match RunLine(lines[0], st, w)
      case Stop(o) => o
      case Continue(st') => RunLines(lines[1..], st', w)
  }

  /** `/bin/sh` on a script text; a fresh shell does not inherit `set -e`. */
  function RunScript(text: string, env: Env, cwd: string, user: string, w: World): Outcome
  {
    match Parse(text)
    case None => Unspecified
    case Some(lines) => RunLines(lines, State(env, cwd, user, false), w)
  }

  /** Follows an outcome that started `su -s /bin/sh -c body user` into the shell that `su` starts. */
  function FollowSu(o: Outcome, w: World): Outcome
  {
    if o.Execed? && |o.argv| == 6 && o.argv[..4] == ["su", "-s", "/bin/sh", "-c"] then
      match w.su(o.user, o.env, o.argv[5])
      case None => Failed
      case Some(env) => RunScript(o.argv[4], env, o.cwd, o.argv[5], w)
    else o
  }

  // ---------- What no script can do ----------

  predicate NamesOnly(env: Env)
  {
    forall k :: k in env ==> Name(k)
  }

  lemma {:induction false} ExportKeepsNames(operands: Line, st: State)
    requires NamesOnly(st.env)
    ensures Export(operands, st).Continue? ==> NamesOnly(Export(operands, st).state.env)
    ensures Export(operands, st).Stop? ==> Export(operands, st) == Stop(Failed)
    decreases |operands|
  {
    if operands != [] {
      var op, eq := operands[0], IndexOf(operands[0], '=');
      var name := if eq == -1 then op else op[..eq];
      if Name(name) {
        ExportKeepsNames(operands[1..], if eq == -1 then st else st.(env := st.env[name := op[eq + 1..]]));
      }
    }
  }

  /** Whatever a script does, the variables it can hand to a program have names (XBD 3.235). */
  lemma {:induction false} RunKeepsNames(lines: seq<Line>, st: State, w: World)
    requires NamesOnly(st.env)
    ensures var o := RunLines(lines, st, w); o.Execed? ==> NamesOnly(o.env)
    decreases |lines|
  {
    if lines != [] {
      var line := lines[0];
      if |line| >= 2 && line[0] == "export" {
        ExportKeepsNames(line[1..], st);
      }
      assert Name("PWD") && Name("OLDPWD");
      var step := RunLine(line, st, w);
      if step.Continue? {
        assert NamesOnly(step.state.env);
        RunKeepsNames(lines[1..], step.state, w);
      }
    }
  }
}
