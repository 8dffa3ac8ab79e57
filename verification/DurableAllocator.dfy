/**
 * container/durable_startup.go, the allocator: `def.files` is the only state, and each call works
 * out the directory of its namespace and the number of its first script by parsing the paths that
 * earlier calls printed.  The registry of `Layout` is what that parsing has to recover.
 */
module DurableAllocator {
  import opened GoStrings
  import opened Results
  import opened GoPath
  import opened Patterns
  import opened DurableScript
  import opened Shell

  const DURABLE_STARTUP_DIR := "/etc/durable-startup.d"
  const DEFAULT_NAMESPACE := "default"
  const DISPATCHER_NAME := "run.sh"
  const FILE_MODE := 493  // 0o755

  /** The directory the scripts live in and the text of the dispatcher beside them. */
  datatype Site = Site(root: string, dispatcherText: string) {
    function Prefix(): string
    {
      root + "/"
    }

    function DispatcherPath(): string
    {
      Prefix() + DISPATCHER_NAME
    }

    function Dispatcher(): File
    {
      File(dispatcherText, DispatcherPath(), FILE_MODE)
    }
  }

  datatype File = File(content: string, containerPath: string, mode: int)

  /** Whom a part of the mode is for, and the three bits it is: read, write and execute. */
  datatype Role = Owner | Group | Others

  function ModeBits(mode: int, role: Role): int
  {
    match role
    case Owner => mode / 64 % 8
    case Group => mode / 8 % 8
    case Others => mode % 8
  }

  /** Somebody in this role can start the file as a script: execute it, and read it for the shell. */
  predicate Startable(f: File, role: Role)
  {
    ModeBits(f.mode, role) % 2 == 1 && ModeBits(f.mode, role) / 4 == 1
  }

  datatype AppendError = NoExecutables | RenderFailed(index: nat, cause: RenderError)
                       | ReservedNamespace | InvalidNamespace(name: string)

  /** durableNamespaceNameRe: `^[a-z0-9][a-z0-9_-]*$`. */
  predicate NamespaceName(s: string)
  {
    && s != ""
    && s[0] != '-' && s[0] != '_'
    && forall i :: 0 <= i < |s| ==> NamespaceChar(s[i])
  }

  predicate NamespaceChar(c: char)
  {
    'a' <= c <= 'z' || Digit(c) || c == '_' || c == '-'
  }

  const NAMESPACE_NAME := Then(OneOf([('a', 'z'), ('0', '9')]), Star(OneOf([('a', 'z'), ('0', '9'), ('_', '_'), ('-', '-')])))

  /** The names that are not refused are those that match the pattern. */
  lemma NamespaceNamesMatch(s: string)
    ensures NamespaceName(s) <==> FullMatch(NAMESPACE_NAME, s)
  {
    var first, rest := NAMESPACE_NAME.first.ranges, NAMESPACE_NAME.second.pattern.ranges;
    ClassThenStar(first, rest, s);
    forall c: char
      ensures InRanges(c, first) <==> 'a' <= c <= 'z' || Digit(c)
      ensures InRanges(c, rest) <==> NamespaceChar(c)
    {
      assert first[0] == ('a', 'z') && first[1] == ('0', '9');
      assert rest[0] == ('a', 'z') && rest[1] == ('0', '9') && rest[2] == ('_', '_') && rest[3] == ('-', '-');
    }
  }

  predicate HasSuffix(s: string, suffix: string)
  {
    |suffix| <= |s| && s[|s| - |suffix|..] == suffix
  }

  // ---------- resolveDurableNamespaceDir ----------

  /** The namespace and index a path belongs to, if it has the layout of the allocator. */
  function PathEntry(site: Site, p: string): Option<(string, string)>
  {
    if p == site.DispatcherPath() || !(site.Prefix() <= p) then None
    else
      var rel := p[|site.Prefix()|..];
      var slash := IndexOf(rel, '/');
      if slash <= 0 then None
      else
        var sub := rel[..slash];
        var dash := IndexOf(sub, '-');
        if dash <= 0 || dash == |sub| - 1 then None else Some((sub[dash + 1..], sub[..dash]))
  }

  /** One more path: only the first index seen for a name counts. */
  function Note(site: Site, known: map<string, nat>, p: string): map<string, nat>
  {
    match PathEntry(site, p)
    case None => known
    case Some((name, number)) =>
      if name in known then known
      else
        match ScanInt(number)
        case None => known
        case Some(idx) => known[name := idx]
  }

  function Known(site: Site, files: seq<File>): map<string, nat>
  {
    if files == [] then map[]
    else Note(site, Known(site, files[..|files| - 1]), files[|files| - 1].containerPath)
  }

  predicate DispatcherIn(site: Site, files: seq<File>)
  {
    files != [] &&
    (DispatcherIn(site, files[..|files| - 1]) || files[|files| - 1].containerPath == site.DispatcherPath())
  }

  function NamespaceDir(site: Site, known: map<string, nat>, name: string): string
  {
    if name in known then Join(site.root, Pad3(known[name]) + "-" + name)
    else if name == DEFAULT_NAMESPACE then Join(site.root, "000-" + DEFAULT_NAMESPACE)
    else Join(site.root, Pad3(|known.Keys - {DEFAULT_NAMESPACE}| + 1) + "-" + name)
  }

  method ResolveDurableNamespaceDir(site: Site, files: seq<File>, name: string)
    returns (dir: string, dispatcherPresent: bool)
    ensures dir == NamespaceDir(site, Known(site, files), name)
    ensures dispatcherPresent <==> DispatcherIn(site, files)
  {
    var knownNames;
    knownNames, dispatcherPresent := ScanFiles(site, files);
    if name in knownNames {
      dir := Join(site.root, Pad3(knownNames[name]) + "-" + name);
    } else if name == DEFAULT_NAMESPACE {
      dir := Join(site.root, "000-" + DEFAULT_NAMESPACE);
    } else {
      var nonDefault := CountNonDefault(knownNames);
      dir := Join(site.root, Pad3(nonDefault + 1) + "-" + name);
    }
  }

  /** The walk over the files. */
  method ScanFiles(site: Site, files: seq<File>) returns (knownNames: map<string, nat>, dispatcherPresent: bool)
    ensures knownNames == Known(site, files)
    ensures dispatcherPresent <==> DispatcherIn(site, files)
  {
    dispatcherPresent := false;
    knownNames := map[];
    for i := 0 to |files|
      invariant knownNames == Known(site, files[..i])
      invariant dispatcherPresent <==> DispatcherIn(site, files[..i])
    {
      var p := files[i].containerPath;
      assert files[..i + 1][..i] == files[..i];
      if p == site.DispatcherPath() {
        dispatcherPresent := true;
        continue;
      }
      var entry := PathEntry(site, p);
      if entry.None? {
        continue;
      }
      var (nsName, number) := entry.value;
      if nsName in knownNames {
        continue;
      }
      var idx := ScanInt(number);
      if idx.None? {
        continue;
      }
      knownNames := knownNames[nsName := idx.value];
    }
    assert files[..|files|] == files;
  }

  /** The loop over the keys of the map, in whatever order it visits them. */
  method CountNonDefault(known: map<string, nat>) returns (n: nat)
    ensures n == |known.Keys - {DEFAULT_NAMESPACE}|
  {
    n := 0;
    var todo := known.Keys;
    while todo != {}
      invariant todo <= known.Keys
      invariant n + |todo - {DEFAULT_NAMESPACE}| == |known.Keys - {DEFAULT_NAMESPACE}|
      decreases |todo|
    {
      var name :| name in todo;
      todo := todo - {name};
      if name != DEFAULT_NAMESPACE {
        assert todo - {DEFAULT_NAMESPACE} == (todo + {name} - {DEFAULT_NAMESPACE}) - {name};
        n := n + 1;
      } else {
        assert todo - {DEFAULT_NAMESPACE} == todo + {name} - {DEFAULT_NAMESPACE};
      }
    }
  }

  // ---------- nextDurableCmdIndex ----------

  predicate CmdFileIn(f: File, nsDir: string)
  {
    Dir(f.containerPath) == nsDir && HasSuffix(f.containerPath, "-cmd.sh")
  }

  function CmdCount(files: seq<File>, nsDir: string): nat
  {
    if files == [] then 0
    else CmdCount(files[..|files| - 1], nsDir) + if CmdFileIn(files[|files| - 1], nsDir) then 1 else 0
  }

  method NextDurableCmdIndex(files: seq<File>, nsDir: string) returns (n: nat)
    ensures n == CmdCount(files, nsDir)
  {
    n := 0;
    for i := 0 to |files|
      invariant n == CmdCount(files[..i], nsDir)
    {
      assert files[..i + 1][..i] == files[..i];
      if Dir(files[i].containerPath) == nsDir && HasSuffix(files[i].containerPath, "-cmd.sh") {
        n := n + 1;
      }
    }
    assert files[..|files|] == files;
  }

  // ---------- appendDurableScripts ----------

  /** The dispatcher up to the end of its ROOT line, and its loops. */
  function DispatcherHead(root: string): string
  {
    SHEBANG + (SET_E + ("LC_ALL=C" + ("\n" + ("export" + (" " + ("LC_ALL" + ("\n" +
    ("ROOT=" + (ShellSingleQuote(root) + "\n")))))))))
  }

  const DISPATCHER_LOOPS :=
    "[ -d \"$ROOT\" ] || exit 0\n" +
    "for ns in \"$ROOT\"/*/; do\n" +
    "\t[ -d \"$ns\" ] || continue\n" +
    "\tfor f in \"$ns\"*-cmd.sh; do\n" +
    "\t\t[ -f \"$f\" ] || continue\n" +
    "\t\t\"$f\"\n" +
    "\tdone\n" +
    "done\n"

  /** renderDurableDispatcher. */
  function RenderDurableDispatcher(root: string): string
  {
    DispatcherHead(root) + DISPATCHER_LOOPS
  }

  function CmdName(n: nat): string
  {
    Pad3(n) + "-cmd.sh"
  }

  /** The script number `n` of a directory. */
  function ScriptAt(nsDir: string, n: nat, content: string): File
  {
    File(content, Join(nsDir, CmdName(n)), FILE_MODE)
  }

  function Scripts(nsDir: string, start: nat, contents: seq<string>): seq<File>
  {
    seq(|contents|, i requires 0 <= i < |contents| => ScriptAt(nsDir, start + i, contents[i]))
  }

  /** The files after a call that renders to `contents`, in terms of the files before it alone. */
  function Appended(site: Site, files: seq<File>, name: string, contents: seq<string>): seq<File>
  {
    var nsDir := NamespaceDir(site, Known(site, files), name);
    files + Scripts(nsDir, CmdCount(files, nsDir), contents) + if DispatcherIn(site, files) then [] else [site.Dispatcher()]
  }

  type Rendering = Result<string, RenderError>

  function Renderings(execs: seq<Executable>): seq<Rendering>
  {
    seq(|execs|, i requires 0 <= i < |execs| => Rendered(execs[i]))
  }

  /** All texts, or the first error. */
  function Collect(rs: seq<Rendering>): Result<seq<string>, AppendError>
  {
    if rs == [] then Ok([])
    else
      var last := |rs| - 1;
      match Collect(rs[..last])
      case Err(e) => Err(e)
      case Ok(contents) =>
        match rs[last]
        case Err(cause) => Err(RenderFailed(last, cause))
        case Ok(content) => Ok(contents + [content])
  }

  /** What the two options do: refuse, leaving the files alone, or append. */
  datatype Call = Default(execs: seq<Executable>) | FromDir(dirName: string, execs: seq<Executable>)

  function Contents(call: Call): Result<seq<string>, AppendError>
  {
    if call.FromDir? && call.dirName == DEFAULT_NAMESPACE then Err(ReservedNamespace)
    else if call.FromDir? && !NamespaceName(call.dirName) then Err(InvalidNamespace(call.dirName))
    else if call.execs == [] then Err(NoExecutables)
    else Collect(Renderings(call.execs))
  }

  function CallName(call: Call): string
  {
    if call.Default? then DEFAULT_NAMESPACE else call.dirName
  }

  function AfterCall(site: Site, files: seq<File>, call: Call): seq<File>
  {
    match Contents(call)
    case Err(_) => files
    case Ok(contents) => Appended(site, files, CallName(call), contents)
  }

  class Definition {
    const site: Site
    var files: seq<File>

    constructor (initial: seq<File>)
      ensures files == initial
      ensures site == Site(DURABLE_STARTUP_DIR, RenderDurableDispatcher(DURABLE_STARTUP_DIR))
    {
      files := initial;
      site := Site(DURABLE_STARTUP_DIR, RenderDurableDispatcher(DURABLE_STARTUP_DIR));
    }

    /** WithDurableStartupCommand(execs...)(def). */
    method WithDurableStartupCommand(execs: seq<Executable>) returns (err: Option<AppendError>)
      modifies this
      ensures files == AfterCall(site, old(files), Default(execs))
      ensures Contents(Default(execs)).Ok? ==> err == None
      ensures Contents(Default(execs)).Err? ==> err == Some(Contents(Default(execs)).error) && files == old(files)
    {
      err := AppendDurableScripts(DEFAULT_NAMESPACE, execs);
    }

    /** WithDurableStartupCommandsFromDir(dirName, execs...)(def). */
    method WithDurableStartupCommandsFromDir(dirName: string, execs: seq<Executable>) returns (err: Option<AppendError>)
      modifies this
      ensures files == AfterCall(site, old(files), FromDir(dirName, execs))
      ensures Contents(FromDir(dirName, execs)).Ok? ==> err == None
      ensures Contents(FromDir(dirName, execs)).Err? ==>
        err == Some(Contents(FromDir(dirName, execs)).error) && files == old(files)
    {
      if dirName == DEFAULT_NAMESPACE {
        return Some(ReservedNamespace);
      }
      if !NamespaceName(dirName) {
        return Some(InvalidNamespace(dirName));
      }
      err := AppendDurableScripts(dirName, execs);
    }

    /** appendDurableScripts: everything is rendered before the first file is appended. */
    method AppendDurableScripts(name: string, execs: seq<Executable>) returns (err: Option<AppendError>)
      modifies this
      ensures execs == [] ==> err == Some(NoExecutables) && files == old(files)
      ensures execs != [] && Collect(Renderings(execs)).Err? ==>
        err == Some(Collect(Renderings(execs)).error) && files == old(files)
      ensures execs != [] && Collect(Renderings(execs)).Ok? ==>
        err == None && files == Appended(site, old(files), name, Collect(Renderings(execs)).value)
    {
      if |execs| == 0 {
        return Some(NoExecutables);
      }

      var rendered := RenderAll(execs);
      if rendered.Err? {
        return Some(rendered.error);
      }
      var contents := rendered.value;

      var nsDir, dispatcherPresent := ResolveDurableNamespaceDir(site, files, name);
      var cmdStart := NextDurableCmdIndex(files, nsDir);
      AppendScripts(nsDir, cmdStart, contents);

      if !dispatcherPresent {
        files := files + [File(site.dispatcherText, site.DispatcherPath(), FILE_MODE)];
      }
      return None;
    }

    /** The second loop of appendDurableScripts. */
    method AppendScripts(nsDir: string, cmdStart: nat, contents: seq<string>)
      modifies this
      ensures files == old(files) + Scripts(nsDir, cmdStart, contents)
    {
      ghost var scripts := Scripts(nsDir, cmdStart, contents);
      for i := 0 to |contents|
        invariant files == old(files) + scripts[..i]
      {
        assert scripts[..i + 1] == scripts[..i] + [scripts[i]];
        files := files + [File(contents[i], Join(nsDir, CmdName(cmdStart + i)), FILE_MODE)];
      }
      assert scripts[..|contents|] == scripts;
    }
  }

  /** The first loop of appendDurableScripts. */
  method RenderAll(execs: seq<Executable>) returns (r: Result<seq<string>, AppendError>)
    ensures r == Collect(Renderings(execs))
  {
    ghost var rs := Renderings(execs);
    var contents: seq<string> := [];
    for i := 0 to |execs|
      invariant Collect(rs[..i]) == Ok(contents)
    {
      var content := RenderDurableScript(execs[i]);
      CollectNext(rs, i, content);
      if content.Err? {
        CollectFails(rs, i);
        return Err(RenderFailed(i, content.error));
      }
      contents := contents + [content.value];
    }
    assert rs[..|execs|] == rs;
    return Ok(contents);
  }

  lemma CollectNext(rs: seq<Rendering>, i: nat, r: Rendering)
    requires i < |rs| && Collect(rs[..i]).Ok? && r == rs[i]
    ensures r.Ok? ==> Collect(rs[..i + 1]) == Ok(Collect(rs[..i]).value + [r.value])
  {
    assert rs[..i + 1][..i] == rs[..i];
  }

  lemma {:induction false} CollectFails(rs: seq<Rendering>, i: nat)
    requires i < |rs| && Collect(rs[..i]).Ok? && rs[i].Err?
    ensures Collect(rs) == Err(RenderFailed(i, rs[i].error))
    decreases |rs|
  {
    var last := |rs| - 1;
    if i < last {
      assert rs[..last][..i] == rs[..i];
      CollectFails(rs[..last], i);
    }
  }
}
