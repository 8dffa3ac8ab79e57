/**
 * container/durable_startup.go, the loops of the dispatcher as text: a few shell commands, how they
 * are written down, and what they do.  `TextDoesTheRun` says that the rendered text does exactly the
 * run over the sorted globs that `DurableRun` is about.
 */
module DurableLoops {
  import opened GoStrings
  import opened Results
  import opened Shell
  import opened DurableScript
  import opened DurableAllocator
  import opened DurableLayout
  import opened DurableDispatch
  import opened DurableRun

  // ---------- Commands and how they are written down ----------

  datatype Jump = ExitZero | NextTurn

  /** What a loop goes over: the directories in a directory, or the command files behind a prefix. */
  datatype Words = Dirs(v: string) | Commands(v: string)

  datatype Command =
    | TestDir(v: string, jump: Jump)
    | TestFile(v: string, jump: Jump)
    | For(v: string, words: Words, body: seq<Command>)
    | Start(v: string)

  function Expansion(v: string): string
  {
    "\"$" + v + "\""
  }

  function WordsText(w: Words): string
  {
    match w
    case Dirs(v) => Expansion(v) + "/*/"
    case Commands(v) => Expansion(v) + "*-cmd.sh"
  }

  function JumpText(j: Jump): string
  {
    if j == ExitZero then "exit 0" else "continue"
  }

  function ForLine(v: string, words: Words, tabs: string): string
  {
    tabs + "for " + v + " in " + WordsText(words) + "; do\n"
  }

  function DoneLine(tabs: string): string
  {
    tabs + "done\n"
  }

  function CommandText(c: Command, tabs: string): string
    decreases c
  {
    match c
    case TestDir(v, jump) => tabs + "[ -d " + Expansion(v) + " ] || " + JumpText(jump) + "\n"
    case TestFile(v, jump) => tabs + "[ -f " + Expansion(v) + " ] || " + JumpText(jump) + "\n"
    case For(v, words, body) => ForLine(v, words, tabs) + Text(body, tabs + "\t") + DoneLine(tabs)
    case Start(v) => tabs + Expansion(v) + "\n"
  }

  function Text(cs: seq<Command>, tabs: string): string
    decreases cs
  {
    if cs == [] then "" else CommandText(cs[0], tabs) + Text(cs[1..], tabs)
  }

  const INNER: seq<Command> := [TestFile("f", NextTurn), Start("f")]
  const OUTER: seq<Command> := [TestDir("ns", NextTurn), For("f", Commands("ns"), INNER)]
  const LOOPS: seq<Command> := [TestDir("ROOT", ExitZero), For("ns", Dirs("ROOT"), OUTER)]

  lemma TextOfTwo(a: Command, b: Command, tabs: string)
    ensures Text([a, b], tabs) == CommandText(a, tabs) + CommandText(b, tabs)
  {
    assert [a, b][1..] == [b] && [b][1..] == [];
    assert Text([b], tabs) == CommandText(b, tabs);
  }

  /** Two loops, one inside the other, line by line. */
  lemma NestedText(a: Command, v: string, ws: Words, b: Command, v': string, ws': Words, c: Command, d: Command, t: string, t': string)
    requires t == "" + "\t" && t' == t + "\t"
    ensures Text([a, For(v, ws, [b, For(v', ws', [c, d])])], "")
         == CommandText(a, "") + (ForLine(v, ws, "") + (CommandText(b, t) + (ForLine(v', ws', t) +
            (CommandText(c, t') + CommandText(d, t')) + DoneLine(t))) + DoneLine(""))
  {
    TextOfTwo(c, d, t');
    TextOfTwo(b, For(v', ws', [c, d]), t);
    TextOfTwo(a, For(v, ws, [b, For(v', ws', [c, d])]), "");
  }

  lemma RootLine()
    ensures CommandText(TestDir("ROOT", ExitZero), "") == "[ -d \"$ROOT\" ] || exit 0\n"
  {
    assert Expansion("ROOT") == "\"$ROOT\"";
  }

  lemma NsLine()
    ensures CommandText(TestDir("ns", NextTurn), "\t") == "\t[ -d \"$ns\" ] || continue\n"
  {
    assert Expansion("ns") == "\"$ns\"";
  }

  lemma StartLines()
    ensures CommandText(TestFile("f", NextTurn), "\t\t") == "\t\t[ -f \"$f\" ] || continue\n"
    ensures CommandText(Start("f"), "\t\t") == "\t\t\"$f\"\n"
  {
    assert Expansion("f") == "\"$f\"";
  }

  lemma OuterLine()
    ensures ForLine("ns", Dirs("ROOT"), "") == "for ns in \"$ROOT\"/*/; do\n"
  {
    assert WordsText(Dirs("ROOT")) == "\"$ROOT\"/*/";
  }

  lemma InnerLine()
    ensures ForLine("f", Commands("ns"), "\t") == "\tfor f in \"$ns\"*-cmd.sh; do\n"
  {
    assert WordsText(Commands("ns")) == "\"$ns\"*-cmd.sh";
  }

  lemma DoneLines()
    ensures DoneLine("") == "done\n" && DoneLine("\t") == "\tdone\n"
    ensures "" + "\t" == "\t" && "\t" + "\t" == "\t\t"
  {
  }

  lemma Unnested(a: string, b: string, c: string, d: string, e: string, f: string, g: string, h: string)
    ensures a + (b + (c + (d + (e + f) + g)) + h) == a + b + c + d + e + f + g + h
  {
    Assoc(d, e, f);
    Assoc(c, d + e + f, g);
    Assoc(c, d + e, f);
    Assoc(c, d, e);
    Assoc(b, c + d + e + f, g);
    Assoc(b, c + d + e, f);
    Assoc(b, c + d, e);
    Assoc(b, c, d);
    Assoc(a, b + c + d + e + f + g, h);
    Assoc(a, b + c + d + e + f, g);
    Assoc(a, b + c + d + e, f);
    Assoc(a, b + c + d, e);
    Assoc(a, b + c, d);
    Assoc(a, b, c);
  }

  /** The commands written down are the text that is rendered behind the head of the dispatcher. */
  lemma LoopsText()
    ensures Text(LOOPS, "") == DISPATCHER_LOOPS
  {
    DoneLines();
    NestedText(TestDir("ROOT", ExitZero), "ns", Dirs("ROOT"), TestDir("ns", NextTurn), "f", Commands("ns"),
               TestFile("f", NextTurn), Start("f"), "\t", "\t\t");
    RootLine();
    NsLine();
    StartLines();
    OuterLine();
    InnerLine();
    Unnested(CommandText(TestDir("ROOT", ExitZero), ""), ForLine("ns", Dirs("ROOT"), ""), CommandText(TestDir("ns", NextTurn), "\t"),
             ForLine("f", Commands("ns"), "\t"), CommandText(TestFile("f", NextTurn), "\t\t"), CommandText(Start("f"), "\t\t"),
             DoneLine("\t"), DoneLine(""));
  }

  // ---------- What the commands do ----------

  type Vars = map<string, string>

  function Val(vars: Vars, v: string): string
  {
    if v in vars then vars[v] else ""
  }

  /** The files there are, and what starting one of them means. */
  datatype Machine = Machine(files: seq<File>, at: Session, sys: System)

  /** Go on with the next command, with the next turn of the loop, or not at all. */
  datatype Control = Normal | Next | Ended

  datatype After = After(done: seq<Started>, control: Control)

  /** The path of a directory, with or without a slash at its end. */
  predicate IsDir(files: seq<File>, path: string)
  {
    var dir := if path != "" && path[|path| - 1] == '/' then path else path + "/";
    exists f :: f in files && dir <= f.containerPath
  }

  function Prefixed(dir: string, words: seq<string>): seq<string>
  {
    seq(|words|, i requires 0 <= i < |words| => dir + words[i])
  }

  /** The matches of a pattern, or else the pattern itself. */
  function OrPattern(matches: seq<string>, pattern: string): seq<string>
  {
    if matches == [] then [pattern] else matches
  }

  /** The command files in a directory given with a slash at its end. */
  function CommandWords(files: seq<File>, dir: string): set<string>
  {
    if dir == "" || dir[|dir| - 1] != '/' then {} else BaseWords(Site(dir[..|dir| - 1], ""), files, "")
  }

  /** The words a loop goes over, matches in byte order. */
  ghost function Expand(files: seq<File>, vars: Vars, words: Words): seq<string>
  {
    match words
    case Dirs(v) =>
      var dir := Val(vars, v);
      OrPattern(Prefixed(dir + "/", Glob(NsWords(Site(dir, ""), files))), dir + "/*/")
    case Commands(v) =>
      var dir := Val(vars, v);
      OrPattern(Prefixed(dir, Glob(CommandWords(files, dir))), dir + "*-cmd.sh")
  }

  /** The environment of a started file: variables that were exported already have their new values. */
  function EnvOf(env: Env, vars: Vars): Env
  {
    Reassign(Reassign(Reassign(env["LC_ALL" := "C"], "ROOT", Val(vars, "ROOT")), "ns", Val(vars, "ns")), "f", Val(vars, "f"))
  }

  function Unless(holds: bool, jump: Jump, done: seq<Started>): After
  {
    After(done, if holds then Normal else if jump == ExitZero then Ended else Next)
  }

  /** Commands one after the other, under `set -e`. */
  ghost function Exec(m: Machine, cs: seq<Command>, vars: Vars, done: seq<Started>): After
    decreases cs, 0, 0
  {
    if cs == [] then After(done, Normal)
    else
      var a := ExecOne(m, cs[0], vars, done);
      if a.control != Normal then a else Exec(m, cs[1..], vars, a.done)
  }

  ghost function ExecOne(m: Machine, c: Command, vars: Vars, done: seq<Started>): After
    decreases c, 0, 0
  {
    match c
    case TestDir(v, jump) => Unless(IsDir(m.files, Val(vars, v)), jump, done)
    case TestFile(v, jump) => Unless(FileAt(m.files, Val(vars, v)).Some?, jump, done)
    case For(v, words, body) => Loop(m, v, Expand(m.files, vars, words), body, vars, done)
    case Start(v) =>
      (match FileAt(m.files, Val(vars, v))
       case None => After(done, Ended)
       case Some(f) =>
         var s := StartFile(Val(vars, v), f, EnvOf(m.at.env, vars), done, m.at, m.sys);
         After(done + [s], if s.ok then Normal else Ended))
  }

  ghost function Loop(m: Machine, v: string, words: seq<string>, body: seq<Command>, vars: Vars, done: seq<Started>): After
    decreases body, 1, |words|
  {
    if words == [] then After(done, Normal)
    else
      var a := Exec(m, body, vars[v := words[0]], done);
      if a.control == Ended then a else Loop(m, v, words[1..], body, vars, a.done)
  }

  // ---------- The run, from the front ----------

  function RunSeq(order: Run, start: Starter, done: seq<Started>): After
  {
    if order == [] then After(done, Normal)
    else
      match start(order[0], done)
      case None => RunSeq(order[1..], start, done)
      case Some(s) => if s.ok then RunSeq(order[1..], start, done + [s]) else After(done + [s], Ended)
  }

  lemma {:induction false} RunSeqIsRunFrom(order: Run, i: nat, start: Starter, done: seq<Started>)
    requires i <= |order|
    ensures RunFrom(order, i, start, done) == RunSeq(order[i..], start, done).done
    decreases |order| - i
  {
    if i < |order| {
      assert order[i..][0] == order[i] && order[i..][1..] == order[i + 1..];
      match start(order[i], done)
      case None => RunSeqIsRunFrom(order, i + 1, start, done);
      case Some(s) =>
        if s.ok {
          RunSeqIsRunFrom(order, i + 1, start, done + [s]);
        }
    }
  }

  lemma {:induction false} RunSeqAppend(a: Run, b: Run, start: Starter, done: seq<Started>)
    ensures var x := RunSeq(a, start, done); RunSeq(a + b, start, done) == if x.control == Ended then x else RunSeq(b, start, x.done)
    decreases |a|
  {
    if a == [] {
      assert a + b == b;
    } else {
      assert (a + b)[0] == a[0] && (a + b)[1..] == a[1..] + b;
      match start(a[0], done)
      case None => RunSeqAppend(a[1..], b, start, done);
      case Some(s) =>
        if s.ok {
          RunSeqAppend(a[1..], b, start, done + [s]);
        }
    }
  }

  lemma PairsCons(ns: string, bases: seq<string>)
    requires bases != []
    ensures Pairs(ns, bases) == [(ns, bases[0])] + Pairs(ns, bases[1..])
  {
    PairsAt(ns, bases);
    PairsAt(ns, bases[1..]);
  }

  lemma {:induction false} FlatCons(nss: seq<string>, bases: seq<seq<string>>)
    requires |nss| == |bases| && nss != []
    ensures Flat(nss, bases) == Pairs(nss[0], bases[0]) + Flat(nss[1..], bases[1..])
    decreases |nss|
  {
    var last := |nss| - 1;
    if last == 0 {
      assert nss[..0] == [] && bases[..0] == [] && nss[1..] == [] && bases[1..] == [];
      assert Pairs(nss[0], bases[0]) + [] == Pairs(nss[0], bases[0]) == [] + Pairs(nss[0], bases[0]);
    } else {
      FlatCons(nss[..last], bases[..last]);
      assert nss[..last][1..] == nss[1..][..last - 1] && bases[..last][1..] == bases[1..][..last - 1];
      assert nss[1..][last - 1] == nss[last] && bases[1..][last - 1] == bases[last];
      var a, b, c := Pairs(nss[0], bases[0]), Flat(nss[1..][..last - 1], bases[1..][..last - 1]), Pairs(nss[last], bases[last]);
      assert (a + b) + c == a + (b + c);
    }
  }

  // ---------- The inner loop ----------

  /** The variables inside the outer loop. */
  predicate InNs(site: Site, vars: Vars, ns: string)
  {
    Val(vars, "ROOT") == site.root && Val(vars, "ns") == site.Prefix() + ns
  }

  lemma EnvInside(site: Site, env: Env, vars: Vars, ns: string, path: string)
    requires InNs(site, vars, ns)
    ensures EnvOf(env, vars["f" := path]) == ScriptEnv(env, site.root, ns, path)
  {
    var vars' := vars["f" := path];
    assert Val(vars', "ROOT") == Val(vars, "ROOT") && Val(vars', "ns") == Val(vars, "ns") && Val(vars', "f") == path;
  }

  /** One turn of the inner loop: what the run does at that place. */
  lemma InnerTurn(m: Machine, site: Site, vars: Vars, ns: string, base: string, done: seq<Started>)
    requires InNs(site, vars, ns)
    ensures var path := PathOf(site, (ns, base));
      Exec(m, INNER, vars["f" := path], done) ==
        match StarterOf(site, m.files, m.at, m.sys)((ns, base), done)
        case None => After(done, Next)
        case Some(s) => After(done + [s], if s.ok then Normal else Ended)
  {
    var path := PathOf(site, (ns, base));
    var vars' := vars["f" := path];
    EnvInside(site, m.at.env, vars, ns, path);
    assert INNER[1..] == [Start("f")] && INNER[1..][1..] == [];
    assert Val(vars', "f") == path;
  }

  lemma {:induction false} InnerLoop(m: Machine, site: Site, vars: Vars, ns: string, bases: seq<string>, done: seq<Started>)
    requires InNs(site, vars, ns)
    ensures Loop(m, "f", Prefixed(site.Prefix() + ns, bases), INNER, vars, done)
         == RunSeq(Pairs(ns, bases), StarterOf(site, m.files, m.at, m.sys), done)
    decreases |bases|
  {
    var words, start := Prefixed(site.Prefix() + ns, bases), StarterOf(site, m.files, m.at, m.sys);
    if bases != [] {
      PairsCons(ns, bases);
      assert Pairs(ns, bases)[0] == (ns, bases[0]) && Pairs(ns, bases)[1..] == Pairs(ns, bases[1..]);
      assert words[0] == PathOf(site, (ns, bases[0])) && words[1..] == Prefixed(site.Prefix() + ns, bases[1..]);
      InnerTurn(m, site, vars, ns, bases[0], done);
      match start((ns, bases[0]), done)
      case None => InnerLoop(m, site, vars, ns, bases[1..], done);
      case Some(s) =>
        if s.ok {
          InnerLoop(m, site, vars, ns, bases[1..], done + [s]);
        }
    }
  }

  lemma {:induction false} FileAtIsFile(files: seq<File>, p: string)
    ensures FileAt(files, p).Some? ==> FileAt(files, p).value in files && FileAt(files, p).value.containerPath == p
    decreases |files|
  {
    if files != [] && files[|files| - 1].containerPath != p {
      FileAtIsFile(files[..|files| - 1], p);
    }
  }

  lemma PatternIsWord(site: Site, ns: string)
    ensures BaseWord(site, ns, site.Prefix() + ns + "*-cmd.sh") == Some("*-cmd.sh")
  {
    var base := "*-cmd.sh";
    TakenApart(site.Prefix() + ns, base);
    assert '/' !in base && base[0] != '.' && HasSuffix(base, "-cmd.sh");
  }

  lemma WordIsThere(site: Site, files: seq<File>, ns: string, f: File)
    requires f in files && BaseWord(site, ns, f.containerPath).Some?
    ensures BaseWords(site, files, ns) != {}
  {
    assert BaseWord(site, ns, f.containerPath).value in BaseWords(site, files, ns);
  }

  /** If no command file is there, nothing is called like the pattern either. */
  lemma NoPatternFile(site: Site, files: seq<File>, ns: string, pattern: string)
    requires BaseWords(site, files, ns) == {} && pattern == site.Prefix() + ns + "*-cmd.sh"
    ensures FileAt(files, pattern).None?
  {
    PatternIsWord(site, ns);
    FileAtIsFile(files, pattern);
    if FileAt(files, pattern).Some? {
      WordIsThere(site, files, ns, FileAt(files, pattern).value);
    }
  }

  lemma CommandWordsAre(site: Site, files: seq<File>, ns: string)
    requires ns != "" && ns[|ns| - 1] == '/'
    ensures CommandWords(files, site.Prefix() + ns) == BaseWords(site, files, ns)
  {
    var dir := site.Prefix() + ns;
    var there := Site(dir[..|dir| - 1], "");
    assert dir[|dir| - 1] == '/' && there.Prefix() == dir && there.Prefix() + "" == dir;
    forall f: File
      ensures BaseWord(there, "", f.containerPath) == BaseWord(site, ns, f.containerPath)
    {
    }
  }

  /** A loop over a pattern without a match has one turn, which the test ends. */
  lemma PatternTurn(m: Machine, vars: Vars, pattern: string, done: seq<Started>)
    requires FileAt(m.files, pattern).None?
    ensures Loop(m, "f", [pattern], INNER, vars, done) == After(done, Normal)
  {
    var vars' := vars["f" := pattern];
    assert Val(vars', "f") == pattern && [pattern][1..] == [];
    assert Exec(m, INNER, vars', done) == After(done, Next);
  }

  /** The inner loop as a command. */
  lemma InnerCommand(m: Machine, site: Site, vars: Vars, ns: string, done: seq<Started>)
    requires InNs(site, vars, ns) && ns != "" && ns[|ns| - 1] == '/'
    ensures ExecOne(m, For("f", Commands("ns"), INNER), vars, done)
         == RunSeq(Pairs(ns, Glob(BaseWords(site, m.files, ns))), StarterOf(site, m.files, m.at, m.sys), done)
  {
    var dir, bases := site.Prefix() + ns, Glob(BaseWords(site, m.files, ns));
    CommandWordsAre(site, m.files, ns);
    if bases == [] {
      assert BaseWords(site, m.files, ns) == {};
      NoPatternFile(site, m.files, ns, dir + "*-cmd.sh");
      PatternTurn(m, vars, dir + "*-cmd.sh", done);
    } else {
      InnerLoop(m, site, vars, ns, bases, done);
    }
  }

  // ---------- The outer loop ----------

  lemma NsWordStarts(site: Site, p: string)
    requires NsWord(site, p).Some?
    ensures var ns := NsWord(site, p).value;
      ns != "" && ns[|ns| - 1] == '/' && site.Prefix() + ns <= p && site.root + "/" <= p
  {
    var rel := p[|site.Prefix()|..];
    assert p == site.Prefix() + rel && NsWord(site, p).value <= rel;
  }

  lemma IsDirBy(files: seq<File>, f: File, path: string)
    requires f in files && path != ""
    requires (if path[|path| - 1] == '/' then path else path + "/") <= f.containerPath
    ensures IsDir(files, path)
  {
  }

  lemma NsWordIsDir(site: Site, files: seq<File>, ns: string)
    requires ns in NsWords(site, files)
    ensures ns != "" && ns[|ns| - 1] == '/' && IsDir(files, site.Prefix() + ns)
  {
    var f :| f in files && NsWord(site, f.containerPath) == Some(ns);
    NsWordStarts(site, f.containerPath);
    assert (site.Prefix() + ns)[|site.Prefix() + ns| - 1] == '/';
    IsDirBy(files, f, site.Prefix() + ns);
  }

  lemma ExecTwo(m: Machine, a: Command, b: Command, vars: Vars, done: seq<Started>)
    ensures var x := ExecOne(m, a, vars, done);
      Exec(m, [a, b], vars, done) == if x.control != Normal then x else ExecOne(m, b, vars, x.done)
  {
    assert [a, b][1..] == [b];
    ExecSingle(m, b, vars, ExecOne(m, a, vars, done).done);
  }

  lemma ExecSingle(m: Machine, c: Command, vars: Vars, done: seq<Started>)
    ensures Exec(m, [c], vars, done) == ExecOne(m, c, vars, done)
  {
    var a := ExecOne(m, c, vars, done);
    assert Exec(m, [c][1..], vars, a.done) == After(a.done, Normal);
  }

  /** One turn of the outer loop: the whole of the inner one. */
  lemma OuterTurn(m: Machine, site: Site, vars: Vars, ns: string, done: seq<Started>)
    requires Val(vars, "ROOT") == site.root && ns in NsWords(site, m.files)
    ensures Exec(m, OUTER, vars["ns" := site.Prefix() + ns], done)
         == RunSeq(Pairs(ns, Glob(BaseWords(site, m.files, ns))), StarterOf(site, m.files, m.at, m.sys), done)
  {
    var vars' := vars["ns" := site.Prefix() + ns];
    NsWordIsDir(site, m.files, ns);
    assert Val(vars', "ns") == site.Prefix() + ns && Val(vars', "ROOT") == site.root;
    InnerCommand(m, site, vars', ns, done);
    ExecTwo(m, TestDir("ns", NextTurn), For("f", Commands("ns"), INNER), vars', done);
  }

  ghost function AllBases(site: Site, files: seq<File>, nss: seq<string>): seq<seq<string>>
  {
    seq(|nss|, i requires 0 <= i < |nss| => Glob(BaseWords(site, files, nss[i])))
  }

  lemma {:induction false} OuterLoop(m: Machine, site: Site, vars: Vars, nss: seq<string>, done: seq<Started>)
    requires Val(vars, "ROOT") == site.root && forall ns :: ns in nss ==> ns in NsWords(site, m.files)
    ensures Loop(m, "ns", Prefixed(site.Prefix(), nss), OUTER, vars, done)
         == RunSeq(Flat(nss, AllBases(site, m.files, nss)), StarterOf(site, m.files, m.at, m.sys), done)
    decreases |nss|
  {
    if nss != [] {
      OuterTurn(m, site, vars, nss[0], done);
      LoopUnfolds(m, site, vars, nss, done);
      RunUnfolds(m, site, nss, done);
      var a := RunSeq(Pairs(nss[0], Glob(BaseWords(site, m.files, nss[0]))), StarterOf(site, m.files, m.at, m.sys), done);
      if a.control != Ended {
        OuterLoop(m, site, vars, nss[1..], a.done);
      }
    }
  }

  lemma LoopUnfolds(m: Machine, site: Site, vars: Vars, nss: seq<string>, done: seq<Started>)
    requires nss != []
    ensures Loop(m, "ns", Prefixed(site.Prefix(), nss), OUTER, vars, done) ==
      var a := Exec(m, OUTER, vars["ns" := site.Prefix() + nss[0]], done);
      if a.control == Ended then a else Loop(m, "ns", Prefixed(site.Prefix(), nss[1..]), OUTER, vars, a.done)
  {
    var words := Prefixed(site.Prefix(), nss);
    assert words[0] == site.Prefix() + nss[0] && words[1..] == Prefixed(site.Prefix(), nss[1..]);
  }

  lemma RunUnfolds(m: Machine, site: Site, nss: seq<string>, done: seq<Started>)
    requires nss != []
    ensures var start := StarterOf(site, m.files, m.at, m.sys);
      var a := RunSeq(Pairs(nss[0], Glob(BaseWords(site, m.files, nss[0]))), start, done);
      RunSeq(Flat(nss, AllBases(site, m.files, nss)), start, done) ==
      if a.control == Ended then a else RunSeq(Flat(nss[1..], AllBases(site, m.files, nss[1..])), start, a.done)
  {
    var bases := AllBases(site, m.files, nss);
    FlatCons(nss, bases);
    assert bases[1..] == AllBases(site, m.files, nss[1..]);
    RunSeqAppend(Pairs(nss[0], bases[0]), Flat(nss[1..], bases[1..]), StarterOf(site, m.files, m.at, m.sys), done);
  }

  lemma NsWordsOfRoot(site: Site, files: seq<File>)
    ensures NsWords(Site(site.root, ""), files) == NsWords(site, files)
  {
    forall f: File
      ensures NsWord(Site(site.root, ""), f.containerPath) == NsWord(site, f.containerPath)
    {
    }
  }

  lemma DirIsThere(site: Site, files: seq<File>, f: File)
    requires f in files && NsWord(site, f.containerPath).Some?
    ensures NsWords(site, files) != {}
  {
    assert NsWord(site, f.containerPath).value in NsWords(site, files);
  }

  lemma PatternIsNsWord(site: Site, p: string)
    requires site.Prefix() + "*/" <= p
    ensures NsWord(site, p).Some?
  {
    var dir := site.Prefix() + "*/";
    var rel := "*/" + p[|dir|..];
    assert p == dir + p[|dir|..] == site.Prefix() + rel;
    TakenApart(site.Prefix(), rel);
    assert rel[0] == '*' && rel[1] == '/' && '/' in rel && p[|site.Prefix()|..] == rel;
  }

  /** If there is no directory, nothing is one that is called like the pattern, either. */
  lemma NoPatternDir(site: Site, files: seq<File>)
    requires NsWords(site, files) == {}
    ensures !IsDir(files, site.root + "/*/")
  {
    var dir := site.root + "/*/";
    assert dir == site.Prefix() + "*/" && dir[|dir| - 1] == '/';
    if IsDir(files, dir) {
      var f :| f in files && dir <= f.containerPath;
      PatternIsNsWord(site, f.containerPath);
      DirIsThere(site, files, f);
    }
  }

  lemma NoDirs(site: Site, files: seq<File>)
    requires !IsDir(files, site.root)
    ensures NsWords(site, files) == {}
  {
    if NsWords(site, files) != {} {
      var f :| f in files && NsWord(site, f.containerPath).Some?;
      NsWordStarts(site, f.containerPath);
      RootIsDir(site, files, f);
    }
  }

  lemma RootIsDir(site: Site, files: seq<File>, f: File)
    requires f in files && site.root + "/" <= f.containerPath
    ensures IsDir(files, site.root)
  {
    assert site.root <= f.containerPath;
  }

  /** The outer loop as a command. */
  lemma OuterCommand(m: Machine, site: Site, vars: Vars, done: seq<Started>)
    requires Val(vars, "ROOT") == site.root
    ensures ExecOne(m, For("ns", Dirs("ROOT"), OUTER), vars, done)
         == RunSeq(DispatchOrder(site, m.files), StarterOf(site, m.files, m.at, m.sys), done)
  {
    var nss := Glob(NsWords(site, m.files));
    NsWordsOfRoot(site, m.files);
    if nss == [] {
      assert NsWords(site, m.files) == {};
      NoPatternDir(site, m.files);
      PatternDirTurn(m, vars, site.root + "/*/", done);
    } else {
      OuterLoop(m, site, vars, nss, done);
    }
  }

  lemma PatternDirTurn(m: Machine, vars: Vars, pattern: string, done: seq<Started>)
    requires !IsDir(m.files, pattern)
    ensures Loop(m, "ns", [pattern], OUTER, vars, done) == After(done, Normal)
  {
    var vars' := vars["ns" := pattern];
    assert Val(vars', "ns") == pattern && [pattern][1..] == [];
    assert Exec(m, OUTER, vars', done) == After(done, Next);
  }

  /**
   * The text behind the head of the dispatcher is that of two nested loops, and what these do, with
   * ROOT set to the directory, is the run over the places in the order of the sorted globs.
   */
  lemma TextDoesTheRun(site: Site, files: seq<File>, at: Session, sys: System)
    ensures RenderDurableDispatcher(site.root) == DispatcherHead(site.root) + Text(LOOPS, "")
    ensures Exec(Machine(files, at, sys), LOOPS, map["ROOT" := site.root], []).done
         == RunFrom(DispatchOrder(site, files), 0, StarterOf(site, files, at, sys), [])
  {
    LoopsText();
    RunSeqIsRunFrom(DispatchOrder(site, files), 0, StarterOf(site, files, at, sys), []);
    assert DispatchOrder(site, files)[0..] == DispatchOrder(site, files);
    LoopsRunSeq(Machine(files, at, sys), site, map["ROOT" := site.root]);
  }

  lemma LoopsRunSeq(m: Machine, site: Site, vars: Vars)
    requires Val(vars, "ROOT") == site.root
    ensures Exec(m, LOOPS, vars, []).done == RunSeq(DispatchOrder(site, m.files), StarterOf(site, m.files, m.at, m.sys), []).done
  {
    ExecTwo(m, TestDir("ROOT", ExitZero), For("ns", Dirs("ROOT"), OUTER), vars, []);
    OuterCommand(m, site, vars, []);
    if !IsDir(m.files, site.root) {
      NoDirs(site, m.files);
      NothingToRun(m, site);
    }
  }

  lemma NothingToRun(m: Machine, site: Site)
    requires NsWords(site, m.files) == {}
    ensures RunSeq(DispatchOrder(site, m.files), StarterOf(site, m.files, m.at, m.sys), []) == After([], Normal)
  {
    assert Glob(NsWords(site, m.files)) == [];
  }
}
