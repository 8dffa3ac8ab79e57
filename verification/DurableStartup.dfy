/**
 * container/durable_startup.go as a whole: what a sequence of its two options leaves in
 * `def.files`, and what the dispatcher then runs.
 */
module DurableStartup {
  import opened GoStrings
  import opened Results
  import opened GoPath
  import opened Patterns
  import opened Shell
  import opened DurableScript
  import opened DurableAllocator
  import opened DurableLayout
  import opened DurableDispatch

  lemma StartupDirIsClean()
    ensures CleanRoot(DURABLE_STARTUP_DIR)
  {
    var pieces := ["etc", "durable-startup.d"];
    assert Simple("etc") && Simple("durable-startup.d");
    assert AllSimple(pieces);
    assert JoinSlash(pieces[1..]) == "durable-startup.d";
    assert DURABLE_STARTUP_DIR == "/" + JoinSlash(pieces);
  }

  lemma SmallNumbers()
    ensures Pad3(0) == "000" && Pad3(1) == "001"
  {
    assert Decimal(0) == "0" && Decimal(1) == "1";
  }

  lemma FirstNames(name: string)
    ensures CmdName(0) == "000-cmd.sh" && CmdName(1) == "001-cmd.sh"
    ensures Sub(0, DEFAULT_NAMESPACE) == "000-default" && Sub(1, name) == "001-" + name
  {
    SmallNumbers();
  }

  /** The paths as the documentation of the startup directory draws them. */
  lemma DocumentedPaths(site: Site, name: string)
    requires site.root == DURABLE_STARTUP_DIR
    ensures site.DispatcherPath() == "/etc/durable-startup.d/run.sh"
    ensures ScriptPath(site, 0, DEFAULT_NAMESPACE, 0) == "/etc/durable-startup.d/" + "000-default" + "/" + "000-cmd.sh"
    ensures ScriptPath(site, 0, DEFAULT_NAMESPACE, 1) == "/etc/durable-startup.d/" + "000-default" + "/" + "001-cmd.sh"
    ensures ScriptPath(site, 1, name, 0) == "/etc/durable-startup.d/" + ("001-" + name) + "/" + "000-cmd.sh"
  {
    FirstNames(name);
    assert site.Prefix() == "/etc/durable-startup.d/";
  }

  /** A call never touches the files before it, and one that is refused adds nothing. */
  lemma EarlierFilesKept(site: Site, files: seq<File>, call: Call)
    ensures files <= AfterCall(site, files, call)
    ensures AfterCall(site, files, call) == files <==> Contents(call).Err?
  {
    if Contents(call).Ok? {
      CallValid(call);
      var nsDir := NamespaceDir(site, Known(site, files), CallName(call));
      var scripts := Scripts(nsDir, CmdCount(files, nsDir), Contents(call).value);
      assert |scripts| > 0;
    }
  }

  function Dispatchers(site: Site, files: seq<File>): nat
  {
    if files == [] then 0
    else
      Dispatchers(site, files[..|files| - 1]) +
      if files[|files| - 1].containerPath == site.DispatcherPath() then 1 else 0
  }

  lemma DispatchersStep(site: Site, files: seq<File>, reg: Registry, r: Registration, last: bool)
    requires NamespaceName(r.name)
    ensures var files' := files + [ScriptFile(site, reg, r)] + if last then [site.Dispatcher()] else [];
      Dispatchers(site, files') == Dispatchers(site, files) + if last then 1 else 0
  {
    var some := files + [ScriptFile(site, reg, r)];
    ParsePrinted(site, Index(reg, r.name), r.name, Slot(reg, r.name));
    assert some[..|files|] == files;
    assert (some + [site.Dispatcher()])[..|some|] == some;
    assert some + [] == some;
  }

  lemma {:induction false} DispatchersOutside(site: Site, files: seq<File>)
    requires AllOutside(site, files)
    ensures Dispatchers(site, files) == 0
    decreases |files|
  {
    if files != [] {
      assert Outside(site, files[|files| - 1]);
      DispatchersOutside(site, files[..|files| - 1]);
    }
  }

  /** There is exactly one dispatcher once a call has succeeded, and none before. */
  lemma {:induction false} OneDispatcher(site: Site, init: seq<File>, reg: Registry, first: nat)
    requires AllOutside(site, init) && ValidNames(reg)
    ensures Dispatchers(site, Layout(site, init, reg, first)) == if 0 < first <= |reg| then 1 else 0
    decreases |reg|
  {
    if reg == [] {
      DispatchersOutside(site, init);
    } else {
      var before, r := reg[..|reg| - 1], reg[|reg| - 1];
      assert r in reg;
      OneDispatcher(site, init, before, first);
      DispatchersStep(site, Layout(site, init, before, first), before, r, |reg| == first);
    }
  }

  /** The names other than the default one hold the indices 1, 2, ... in first-seen order. */
  lemma IndicesInOrder(reg: Registry, k: nat)
    requires k < |Names(reg)|
    ensures Index(reg, Names(reg)[k]) == k + 1
  {
    NamesDistinct(reg);
    var p := Position(Names(reg), Names(reg)[k]);
    assert Names(reg)[p] == Names(reg)[k];
  }

  /**
   * The documented order, end to end: after any sequence of the two options the dispatcher comes
   * to the scripts in registration order exactly when all indices stay within three digits.
   */
  lemma OptionsRunInOrder(site: Site, init: seq<File>, calls: seq<Call>)
    requires site.root == DURABLE_STARTUP_DIR && AllOutside(site, init)
    requires |RegistryOf(calls)| < INT64_LIMIT
    ensures DispatchOrder(site, AfterCalls(site, init, calls)) == RegistrationOrder(RegistryOf(calls))
       <==> Within999(RegistryOf(calls))
  {
    StartupDirIsClean();
    RunsFollowRegistry(site, init, calls);
    RegistryValid(calls);
    DispatchOrderIsExact(site, init, RegistryOf(calls), FirstSize(calls));
  }

  /** And the script it finds under a namespace and number is the one registered there. */
  lemma OptionsKeepContents(site: Site, init: seq<File>, calls: seq<Call>, name: string, slot: nat)
    requires site.root == DURABLE_STARTUP_DIR && AllOutside(site, init)
    requires |RegistryOf(calls)| < INT64_LIMIT && slot < Slot(RegistryOf(calls), name)
    ensures var reg := RegistryOf(calls);
      var p := ScriptPath(site, Index(reg, name), name, slot);
      |ContentsOf(reg, name)| == Slot(reg, name) &&
      FileAt(AfterCalls(site, init, calls), p) == Some(File(ContentsOf(reg, name)[slot], p, FILE_MODE))
  {
    StartupDirIsClean();
    RunsFollowRegistry(site, init, calls);
    RegistryValid(calls);
    ScriptHoldsContent(site, init, RegistryOf(calls), FirstSize(calls), name, slot);
  }

  /** Every path the options give out, the dispatcher's included, is one that no other file has. */
  lemma DurablePathsDistinct(site: Site, init: seq<File>, calls: seq<Call>)
    requires site.root == DURABLE_STARTUP_DIR && AllOutside(site, init)
    requires |RegistryOf(calls)| < INT64_LIMIT
    ensures init <= AfterCalls(site, init, calls) && NewPaths(AfterCalls(site, init, calls), |init|)
  {
    StartupDirIsClean();
    RegistryValid(calls);
    RunsFollowRegistry(site, init, calls);
    LayoutPathsDistinct(site, init, RegistryOf(calls), FirstSize(calls));
  }

  /** Every file that the options add, the dispatcher included, can be started by anybody. */
  lemma {:induction false} AddedFilesStart(site: Site, init: seq<File>, calls: seq<Call>)
    ensures init <= AfterCalls(site, init, calls)
    ensures forall f, role :: f in AfterCalls(site, init, calls)[|init|..] ==> Startable(f, role)
    decreases |calls|
  {
    if calls != [] {
      var before, call := AfterCalls(site, init, calls[..|calls| - 1]), calls[|calls| - 1];
      AddedFilesStart(site, init, calls[..|calls| - 1]);
      if Contents(call).Ok? {
        AppendedFilesStart(site, before, CallName(call), Contents(call).value);
        var after := Appended(site, before, CallName(call), Contents(call).value);
        assert after[|init|..] == before[|init|..] + after[|before|..];
      }
    }
  }

  lemma AppendedFilesStart(site: Site, files: seq<File>, name: string, contents: seq<string>)
    ensures var after := Appended(site, files, name, contents);
      files <= after && forall f, role :: f in after[|files|..] ==> Startable(f, role)
  {
    var dir := NamespaceDir(site, Known(site, files), name);
    var scripts := Scripts(dir, CmdCount(files, dir), contents);
    var more := if DispatcherIn(site, files) then [] else [site.Dispatcher()];
    RightModes(scripts);
    RightModes(more);
    assert files + scripts + more == files + (scripts + more);
    TakenApart(files, scripts + more);
  }

  lemma RightModes(files: seq<File>)
    requires forall f :: f in files ==> f.mode == FILE_MODE
    ensures forall f, role :: f in files ==> Startable(f, role)
  {
    forall f, role | f in files
      ensures Startable(f, role)
    {
      RightMode(f);
    }
  }

  /** The mode of the rendered files lets everybody read and execute them. */
  lemma RightMode(f: File)
    requires f.mode == FILE_MODE
    ensures forall role :: Startable(f, role)
  {
    forall role
      ensures Startable(f, role)
    {
      match role
      case Owner =>
      case Group =>
      case Others =>
    }
  }

  // ---------- From the registered commands to what runs ----------

  /** The executables registered under a name, in order, by the calls that succeeded. */
  function CommandsOf(calls: seq<Call>, name: string): seq<Executable>
  {
    if calls == [] then []
    else
      var call := calls[|calls| - 1];
      CommandsOf(calls[..|calls| - 1], name) +
      if Contents(call).Ok? && CallName(call) == name then call.execs else []
  }

  /** Every text belongs to the executable at its place. */
  ghost predicate RenderedAll(execs: seq<Executable>, contents: seq<string>)
  {
    |execs| == |contents| && forall i :: 0 <= i < |execs| ==> Rendered(execs[i]) == Ok(contents[i])
  }

  /** Collecting succeeds exactly if every rendering did, and then keeps all texts in order. */
  lemma {:induction false} CollectKeepsAll(rs: seq<Rendering>)
    ensures Collect(rs).Ok? <==> forall i :: 0 <= i < |rs| ==> rs[i].Ok?
    ensures Collect(rs).Ok? ==>
      |Collect(rs).value| == |rs| && forall i :: 0 <= i < |rs| ==> rs[i] == Ok(Collect(rs).value[i])
    decreases |rs|
  {
    if rs != [] {
      var init := rs[..|rs| - 1];
      CollectKeepsAll(init);
      assert forall i :: 0 <= i < |init| ==> init[i] == rs[i];
    }
  }

  /** Which calls are refused and with what: the reserved name, a name that does not match, nothing to run, a bad executable. */
  lemma CallRefusedExactly(call: Call)
    ensures call == FromDir("default", call.execs) ==> Contents(call) == Err(ReservedNamespace)
    ensures call.FromDir? && !FullMatch(NAMESPACE_NAME, call.dirName) ==> Contents(call) == Err(InvalidNamespace(call.dirName))
    ensures call.Default? || (call.dirName != "default" && FullMatch(NAMESPACE_NAME, call.dirName)) ==>
      && (call.execs == [] ==> Contents(call) == Err(NoExecutables))
      && (call.execs != [] ==> (Contents(call).Ok? <==> forall e :: e in call.execs ==> Rendered(e).Ok?))
    ensures CallName(call) == if call.Default? then "default" else call.dirName
  {
    var rs := Renderings(call.execs);
    CollectKeepsAll(rs);
    if call.FromDir? {
      NamespaceNamesMatch(call.dirName);
      DefaultMatches();
    }
    if forall i :: 0 <= i < |rs| ==> rs[i].Ok? {
      forall e | e in call.execs
        ensures Rendered(e).Ok?
      {
        var i :| 0 <= i < |call.execs| && call.execs[i] == e;
        assert rs[i].Ok?;
      }
    }
  }

  lemma DefaultMatches()
    ensures FullMatch(NAMESPACE_NAME, DEFAULT_NAMESPACE)
  {
    NamespaceNamesMatch(DEFAULT_NAMESPACE);
    assert forall i :: 0 <= i < 7 ==> NamespaceChar(DEFAULT_NAMESPACE[i]);
  }

  lemma CallRenders(call: Call)
    requires Contents(call).Ok?
    ensures RenderedAll(call.execs, Contents(call).value)
  {
    var rs := Renderings(call.execs);
    CollectKeepsAll(rs);
    assert forall i :: 0 <= i < |rs| ==> rs[i] == Rendered(call.execs[i]);
  }

  lemma {:induction false} ContentsOfRegs(reg: Registry, n: string, contents: seq<string>, name: string)
    ensures ContentsOf(reg + Regs(n, contents), name) == ContentsOf(reg, name) + if n == name then contents else []
    decreases |contents|
  {
    if contents == [] {
      assert reg + Regs(n, contents) == reg;
    } else {
      var last := |contents| - 1;
      ContentsOfRegs(reg, n, contents[..last], name);
      RegsSnoc(reg, n, contents);
      var before := reg + Regs(n, contents[..last]);
      assert (before + [Registration(n, contents[last])])[..|before|] == before;
    }
  }

  lemma RenderedAppend(es: seq<Executable>, cs: seq<string>, es': seq<Executable>, cs': seq<string>)
    requires RenderedAll(es, cs) && RenderedAll(es', cs')
    ensures RenderedAll(es + es', cs + cs')
  {
  }

  /** The contents registered under a name are the scripts of the executables registered under it. */
  lemma {:induction false} ContentsAreRendered(calls: seq<Call>, name: string)
    ensures RenderedAll(CommandsOf(calls, name), ContentsOf(RegistryOf(calls), name))
    decreases |calls|
  {
    if calls == [] {
      NothingRegistered(name);
    } else {
      ContentsAreRendered(calls[..|calls| - 1], name);
      CallContents(calls, name);
    }
  }

  lemma NothingRegistered(name: string)
    ensures CommandsOf([], name) == [] && ContentsOf(RegistryOf([]), name) == []
  {
  }

  lemma CallContents(calls: seq<Call>, name: string)
    requires calls != []
    requires var init := calls[..|calls| - 1]; RenderedAll(CommandsOf(init, name), ContentsOf(RegistryOf(init), name))
    ensures RenderedAll(CommandsOf(calls, name), ContentsOf(RegistryOf(calls), name))
  {
    var init, call := calls[..|calls| - 1], calls[|calls| - 1];
    if Contents(call).Ok? {
      var contents := Contents(call).value;
      ContentsOfRegs(RegistryOf(init), CallName(call), contents, name);
      CallRenders(call);
      RenderedAppend(CommandsOf(init, name), ContentsOf(RegistryOf(init), name), call.execs, contents);
      if CallName(call) != name {
        assert ContentsOf(RegistryOf(init), name) + [] == ContentsOf(RegistryOf(init), name);
      }
    } else {
      assert RegistryOf(init) + [] == RegistryOf(init);
    }
  }

  /** What lies there is the script of `e`, and anybody can start it. */
  ghost predicate Holds(f: Option<File>, e: Executable)
  {
    Rendered(e).Ok? && f.Some? && f.value.content == Rendered(e).value && forall role :: Startable(f.value, role)
  }

  lemma RenderedHeld(content: string, path: string, e: Executable)
    requires Rendered(e) == Ok(content)
    ensures Holds(Some(File(content, path, FILE_MODE)), e)
  {
    RightMode(File(content, path, FILE_MODE));
  }

  /** At the slot-th place of a namespace lies the script of the slot-th executable registered under it. */
  lemma CommandIsThere(site: Site, init: seq<File>, calls: seq<Call>, name: string, slot: nat)
    requires site.root == DURABLE_STARTUP_DIR && AllOutside(site, init)
    requires |RegistryOf(calls)| < INT64_LIMIT && slot < |CommandsOf(calls, name)|
    ensures Holds(FileAt(AfterCalls(site, init, calls), ScriptPath(site, Index(RegistryOf(calls), name), name, slot)),
                  CommandsOf(calls, name)[slot])
  {
    var reg := RegistryOf(calls);
    ContentsAreRendered(calls, name);
    ContentsCount(reg, name);
    OptionsKeepContents(site, init, calls, name, slot);
    RenderedHeld(ContentsOf(reg, name)[slot], ScriptPath(site, Index(reg, name), name, slot), CommandsOf(calls, name)[slot]);
  }

  /**
   * End to end: the file at the slot-th place of a namespace is the script of the slot-th executable
   * registered under it, and running that script - wherever, as whomever and on whatever system -
   * does what that executable asks for, if it is faithful.
   */
  lemma StartupRunsCommands(site: Site, init: seq<File>, calls: seq<Call>, name: string, slot: nat,
                            base: Env, cwd: string, user: string, w: World)
    requires site.root == DURABLE_STARTUP_DIR && AllOutside(site, init)
    requires |RegistryOf(calls)| < INT64_LIMIT && slot < |CommandsOf(calls, name)|
    ensures var e := CommandsOf(calls, name)[slot];
      var script := FileAt(AfterCalls(site, init, calls), ScriptPath(site, Index(RegistryOf(calls), name), name, slot));
      && Holds(script, e) && e.Executable? && e.command != []
      && (Faithful(e.command, Config(e)) ==>
           var o := RunScript(script.value.content, base, cwd, user, w);
           (if Config(e).user == "" then o else FollowSu(o, w)) == Intended(e.command, Config(e), base, cwd, user, w))
  {
    CommandIsThere(site, init, calls, name, slot);
    var e := CommandsOf(calls, name)[slot];
    RenderedRuns(e, base, cwd, user, w);
  }

  lemma RenderedRuns(e: Executable, base: Env, cwd: string, user: string, w: World)
    requires Rendered(e).Ok?
    ensures e.Executable? && e.command != []
    ensures Faithful(e.command, Config(e)) ==>
      var o := RunScript(Rendered(e).value, base, cwd, user, w);
      (if Config(e).user == "" then o else FollowSu(o, w)) == Intended(e.command, Config(e), base, cwd, user, w)
  {
    if Faithful(e.command, Config(e)) {
      CompilationPreservesMeaning(e.command, Config(e), base, cwd, user, w);
    }
  }

  lemma ForeignKnown(site: Site, idx: nat, name: string)
    requires NamespaceName(name) && idx < INT64_LIMIT
    ensures Known(site, [File("", ScriptPath(site, idx, name, 0), FILE_MODE)]) == map[name := idx]
  {
    var f := File("", ScriptPath(site, idx, name, 0), FILE_MODE);
    ParsePrinted(site, idx, name, 0);
    ScanPad3(idx);
    KnownSnoc(site, [], f);
    assert [] + [f] == [f];
  }

  /**
   * A foreign directory that has the layout of the allocator breaks all this: allocation counts
   * entries instead of taking the maximum, so a new name gets index 2 even if that is taken.
   */
  lemma ForeignIndexIsTaken(site: Site, name: string, newName: string)
    requires CleanRoot(site.root) && NamespaceName(name) && NamespaceName(newName)
    requires name != newName && name != DEFAULT_NAMESPACE && newName != DEFAULT_NAMESPACE
    ensures var foreign := [File("", ScriptPath(site, 2, name, 0), FILE_MODE)];
      NamespaceDir(site, Known(site, foreign), newName) == SubDir(site, 2, newName)
  {
    ForeignKnown(site, 2, name);
    var known := map[name := 2];
    assert known.Keys - {DEFAULT_NAMESPACE} == {name};
    JoinPrinted(site, 2, newName, 0);
  }

  /** An unquoted word with a quoted one right behind it, on the last line. */
  lemma LexLastLine(word: string, value: string)
    requires PlainWord(word) && '\0' !in value
    ensures Parse(word + (ShellSingleQuote(value) + "\n")) == Some([[word + value]])
  {
    LexJoinedWord(word, value, "", []);
    assert "\n" + "" == "\n" && [] + [word + value] == [word + value];
    assert [[word + value]] + [] == [[word + value]];
  }

  lemma LexHead(a: string, b: string, c: string, last: string)
    requires PlainWord(a) && PlainWord(b) && PlainWord(c)
    ensures Parse(SHEBANG + (SET_E + (a + ("\n" + (b + (" " + (c + ("\n" + last))))))))
         == Emit(["set", "-e"], Emit([a], Emit([b, c], Parse(last))))
  {
    var line3 := b + (" " + (c + ("\n" + last)));
    LexShebang(SET_E + (a + ("\n" + line3)));
    LexSetE(a + ("\n" + line3));
    LexOneWord(a, line3);
    LexTwoWords(b, c, last);
  }

  lemma HeadWords()
    ensures PlainWord("LC_ALL=C") && PlainWord("export") && PlainWord("LC_ALL") && PlainWord("ROOT=")
  {
  }

  lemma FourLines(a: Line, b: Line, c: Line, d: Line)
    requires a != [] && b != [] && c != []
    ensures Emit(a, Emit(b, Emit(c, Some([d])))) == Some([a, b, c, d])
  {
    assert [c] + [d] == [c, d] && [b] + [c, d] == [b, c, d] && [a] + [b, c, d] == [a, b, c, d];
  }

  /**
   * The dispatcher starts with four lines that turn on `set -e`, set LC_ALL, export it and set ROOT
   * to exactly the directory; its loops come behind them.
   */
  lemma DispatcherHeadReads(root: string)
    requires '\0' !in root
    ensures DispatcherHead(root) <= RenderDurableDispatcher(root)
    ensures Parse(DispatcherHead(root)) == Some([["set", "-e"], ["LC_ALL=C"], ["export", "LC_ALL"], ["ROOT=" + root]])
  {
    HeadWords();
    LexHead("LC_ALL=C", "export", "LC_ALL", "ROOT=" + (ShellSingleQuote(root) + "\n"));
    LexLastLine("ROOT=", root);
    FourLines(["set", "-e"], ["LC_ALL=C"], ["export", "LC_ALL"], ["ROOT=" + root]);
  }
}
