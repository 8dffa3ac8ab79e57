/**
 * What the allocator of container/durable_startup.go achieves over whole runs of its options.
 * `Layout` places every script by looking it up in an explicit registry of everything registered
 * so far; `RunsFollowRegistry` shows that the allocator, which keeps no registry and only parses
 * the paths it printed before, produces exactly that layout.
 */
module DurableLayout {
  import opened GoStrings
  import opened Results
  import opened GoPath
  import opened Shell
  import opened DurableAllocator

  // ---------- The registry ----------

  datatype Registration = Registration(name: string, content: string)

  type Registry = seq<Registration>

  /** The names other than the default one, in the order they were first seen. */
  function Names(reg: Registry): seq<string>
  {
    if reg == [] then []
    else
      var names, name := Names(reg[..|reg| - 1]), reg[|reg| - 1].name;
      if name == DEFAULT_NAMESPACE || name in names then names else names + [name]
  }

  function Position(names: seq<string>, name: string): (i: nat)
    ensures i <= |names|
    ensures i < |names| <==> name in names
    ensures i < |names| ==> names[i] == name
  {
    if names == [] || names[0] == name then 0 else 1 + Position(names[1..], name)
  }

  /** 0 for the default namespace, then 1, 2, ... by first registration. */
  function Index(reg: Registry, name: string): nat
  {
    if name == DEFAULT_NAMESPACE then 0 else Position(Names(reg), name) + 1
  }

  /** How many commands a namespace has. */
  function Slot(reg: Registry, name: string): nat
  {
    if reg == [] then 0
    else Slot(reg[..|reg| - 1], name) + if reg[|reg| - 1].name == name then 1 else 0
  }

  predicate Registered(reg: Registry, name: string)
  {
    Slot(reg, name) > 0
  }

  function Sub(idx: nat, name: string): string
  {
    Pad3(idx) + "-" + name
  }

  function SubDir(site: Site, idx: nat, name: string): string
  {
    site.Prefix() + Sub(idx, name)
  }

  function ScriptPath(site: Site, idx: nat, name: string, slot: nat): string
  {
    SubDir(site, idx, name) + "/" + CmdName(slot)
  }

  /** Where the registration that follows `reg` goes. */
  function PathAfter(site: Site, reg: Registry, name: string): string
  {
    ScriptPath(site, Index(reg, name), name, Slot(reg, name))
  }

  /** The file of the registration `r` that follows `reg`. */
  function ScriptFile(site: Site, reg: Registry, r: Registration): File
  {
    File(r.content, PathAfter(site, reg, r.name), FILE_MODE)
  }

  /** All files: the initial ones, the scripts, and one dispatcher after the first `first` scripts. */
  function Layout(site: Site, init: seq<File>, reg: Registry, first: nat): seq<File>
  {
    if reg == [] then init
    else
      var before, r := reg[..|reg| - 1], reg[|reg| - 1];
      Layout(site, init, before, first) + [ScriptFile(site, before, r)] +
      if |reg| == first then [site.Dispatcher()] else []
  }

  function Regs(name: string, contents: seq<string>): Registry
  {
    seq(|contents|, i requires 0 <= i < |contents| => Registration(name, contents[i]))
  }

  /** What a sequence of calls registers; refused calls register nothing. */
  function RegistryOf(calls: seq<Call>): Registry
  {
    if calls == [] then []
    else
      var call := calls[|calls| - 1];
      RegistryOf(calls[..|calls| - 1]) +
      match Contents(call)
      case Err(_) => []
      case Ok(contents) => Regs(CallName(call), contents)
  }

  /** How many scripts the first call that succeeds writes. */
  function FirstSize(calls: seq<Call>): nat
  {
    if calls == [] then 0
    else
      var earlier := FirstSize(calls[..|calls| - 1]);
      if earlier > 0 then earlier
      else
        match Contents(calls[|calls| - 1])
        case Err(_) => 0
        case Ok(contents) => |contents|
  }

  function AfterCalls(site: Site, files: seq<File>, calls: seq<Call>): seq<File>
  {
    if calls == [] then files
    else AfterCall(site, AfterCalls(site, files, calls[..|calls| - 1]), calls[|calls| - 1])
  }

  // ---------- Where a run may start ----------

  ghost predicate CleanRoot(root: string)
  {
    exists pieces :: pieces != [] && AllSimple(pieces) && root == "/" + JoinSlash(pieces)
  }

  /** A file with no place in the layout: not the dispatcher, and in no directory of the startup directory. */
  predicate Outside(site: Site, f: File)
  {
    && f.containerPath != site.DispatcherPath()
    && !(site.Prefix() <= Dir(f.containerPath))
    && (site.Prefix() <= f.containerPath ==> '/' !in f.containerPath[|site.Prefix()|..])
  }

  predicate AllOutside(site: Site, files: seq<File>)
  {
    forall f :: f in files ==> Outside(site, f)
  }

  predicate ValidNames(reg: Registry)
  {
    forall r :: r in reg ==> NamespaceName(r.name)
  }

  // ---------- Printing and parsing one path ----------

  lemma {:induction false} JoinSlashSnoc(pieces: seq<string>, last: string)
    requires pieces != []
    ensures JoinSlash(pieces + [last]) == JoinSlash(pieces) + "/" + last
    decreases |pieces|
  {
    if |pieces| > 1 {
      JoinSlashSnoc(pieces[1..], last);
      assert (pieces + [last])[1..] == pieces[1..] + [last];
    } else {
      assert (pieces + [last])[1..] == [last];
    }
  }

  /** One simple piece under a clean directory: Join appends it, Dir takes it off again. */
  lemma UnderCleanRoot(root: string, piece: string)
    requires CleanRoot(root) && Simple(piece)
    ensures Join(root, piece) == root + "/" + piece
    ensures Dir(root + "/" + piece) == root
    ensures CleanRoot(root + "/" + piece)
  {
    var pieces :| pieces != [] && AllSimple(pieces) && root == "/" + JoinSlash(pieces);
    var more := pieces + [piece];
    JoinSlashSnoc(pieces, piece);
    assert root + "/" + piece == "/" + JoinSlash(more);
    CleanSimple(pieces);
    CleanSimple(more);
    AfterLastSlashOf(root, piece);
    assert (root + "/" + piece)[..|root| + 1] == root + "/";
  }

  lemma SimplePieces(idx: nat, name: string)
    requires NamespaceName(name)
    ensures Simple(Sub(idx, name))
    ensures Simple(CmdName(idx))
  {
    var digits, sub, cmd := Pad3(idx), Sub(idx, name), CmdName(idx);
    assert Digit(digits[0]);
    forall i | 0 <= i < |sub|
      ensures sub[i] != '/'
    {
      if i < |digits| {
        assert Digit(digits[i]);
      } else if i > |digits| {
        assert NamespaceChar(name[i - |digits| - 1]);
      }
    }
    forall i | 0 <= i < |cmd|
      ensures cmd[i] != '/'
    {
      if i < |digits| {
        assert Digit(digits[i]);
      }
    }
  }

  /** The first dash of a directory name ends its number, whatever dashes the name has. */
  lemma SplitSub(idx: nat, name: string)
    ensures var s, n := Sub(idx, name), |Pad3(idx)|;
      IndexOf(s, '-') == n && s[..n] == Pad3(idx) && s[n + 1..] == name
  {
    var digits := Pad3(idx);
    forall i | 0 <= i < |digits|
      ensures digits[i] != '-'
    {
      assert Digit(digits[i]);
    }
    IndexOfJoined(digits, '-', name);
  }

  lemma RelOfScript(site: Site, idx: nat, name: string, slot: nat)
    requires NamespaceName(name)
    ensures var p, rel := ScriptPath(site, idx, name, slot), Sub(idx, name) + ['/'] + CmdName(slot);
      && p == site.Prefix() + rel && p[|site.Prefix()|..] == rel
      && IndexOf(rel, '/') == |Sub(idx, name)| && rel[..|Sub(idx, name)|] == Sub(idx, name)
  {
    SimplePieces(idx, name);
    IndexOfJoined(Sub(idx, name), '/', CmdName(slot));
    assert ScriptPath(site, idx, name, slot) == site.Prefix() + (Sub(idx, name) + ['/'] + CmdName(slot));
  }

  /** Reading a path back gives the namespace and the index it was printed from. */
  lemma ParsePrinted(site: Site, idx: nat, name: string, slot: nat)
    requires NamespaceName(name)
    ensures ScriptPath(site, idx, name, slot) != site.DispatcherPath()
    ensures PathEntry(site, ScriptPath(site, idx, name, slot)) == Some((name, Pad3(idx)))
  {
    RelOfScript(site, idx, name, slot);
    SplitSub(idx, name);
    var rel := Sub(idx, name) + ['/'] + CmdName(slot);
    assert site.DispatcherPath()[|site.Prefix()|..] == DISPATCHER_NAME;
    assert IndexOf(DISPATCHER_NAME, '/') == -1;
  }

  lemma SubInjective(i: nat, n: string, j: nat, m: string)
    requires Sub(i, n) == Sub(j, m)
    ensures i == j && n == m
  {
    SplitSub(i, n);
    SplitSub(j, m);
    NumberOfPad3(i);
    NumberOfPad3(j);
  }

  /** Different namespace, index or number of command: different path. */
  lemma ScriptPathInjective(site: Site, i: nat, n: string, a: nat, j: nat, m: string, b: nat)
    requires NamespaceName(n) && NamespaceName(m)
    requires ScriptPath(site, i, n, a) == ScriptPath(site, j, m, b)
    ensures i == j && n == m && a == b
  {
    ParsePrinted(site, i, n, a);
    ParsePrinted(site, j, m, b);
    NumberOfPad3(i);
    NumberOfPad3(j);
    var p, d := ScriptPath(site, i, n, a), SubDir(site, i, n) + "/";
    assert p[|d|..] == CmdName(a) && p[|d|..] == CmdName(b);
    assert CmdName(a)[..|CmdName(a)| - 7] == Pad3(a);
    assert CmdName(b)[..|CmdName(b)| - 7] == Pad3(b);
    NumberOfPad3(a);
    NumberOfPad3(b);
  }

  /** A script is a command file, and Dir finds its directory. */
  lemma DirOfScript(site: Site, idx: nat, name: string, slot: nat)
    requires CleanRoot(site.root) && NamespaceName(name)
    ensures Dir(ScriptPath(site, idx, name, slot)) == SubDir(site, idx, name)
    ensures HasSuffix(ScriptPath(site, idx, name, slot), "-cmd.sh")
  {
    SimplePieces(idx, name);
    SimplePieces(slot, name);
    UnderCleanRoot(site.root, Sub(idx, name));
    assert SubDir(site, idx, name) == site.root + "/" + Sub(idx, name);
    UnderCleanRoot(SubDir(site, idx, name), CmdName(slot));
    ScriptSuffix(site, idx, name, slot);
  }

  lemma ScriptSuffix(site: Site, idx: nat, name: string, slot: nat)
    ensures HasSuffix(ScriptPath(site, idx, name, slot), "-cmd.sh")
  {
    SuffixOf(SubDir(site, idx, name) + "/" + Pad3(slot), "-cmd.sh");
    assert ScriptPath(site, idx, name, slot) == SubDir(site, idx, name) + "/" + Pad3(slot) + "-cmd.sh";
  }

  lemma SuffixOf(s: string, suffix: string)
    ensures HasSuffix(s + suffix, suffix)
  {
  }

  lemma JoinPrinted(site: Site, idx: nat, name: string, slot: nat)
    requires CleanRoot(site.root) && NamespaceName(name)
    ensures Join(site.root, Sub(idx, name)) == SubDir(site, idx, name)
    ensures Join(SubDir(site, idx, name), CmdName(slot)) == ScriptPath(site, idx, name, slot)
  {
    SimplePieces(idx, name);
    SimplePieces(slot, name);
    UnderCleanRoot(site.root, Sub(idx, name));
    assert SubDir(site, idx, name) == site.root + "/" + Sub(idx, name);
    UnderCleanRoot(SubDir(site, idx, name), CmdName(slot));
  }

  // ---------- What the parsed state amounts to ----------

  lemma {:induction false} NamesDistinct(reg: Registry)
    ensures DEFAULT_NAMESPACE !in Names(reg)
    ensures forall i, j :: 0 <= i < j < |Names(reg)| ==> Names(reg)[i] != Names(reg)[j]
    decreases |reg|
  {
    if reg != [] {
      NamesDistinct(reg[..|reg| - 1]);
    }
  }

  /** A name is in the list of names exactly when it is registered and not the default one. */
  lemma {:induction false} NamesAreRegistered(reg: Registry, name: string)
    ensures name in Names(reg) <==> name != DEFAULT_NAMESPACE && Registered(reg, name)
    ensures |Names(reg)| <= |reg|
    decreases |reg|
  {
    if reg != [] {
      NamesAreRegistered(reg[..|reg| - 1], name);
    }
  }

  lemma {:induction false} PositionSnoc(names: seq<string>, name: string, last: string)
    requires name in names || (name == last && last !in names)
    ensures Position(names + [last], name) == Position(names, name)
    decreases |names|
  {
    if names != [] && names[0] != name {
      assert (names + [last])[1..] == names[1..] + [last];
      PositionSnoc(names[1..], name, last);
    }
  }

  /** The index of a name never changes once the name is registered, nor by registering it. */
  lemma IndexStable(reg: Registry, r: Registration, name: string)
    requires Registered(reg, name) || r.name == name
    ensures Index(reg + [r], name) == Index(reg, name)
  {
    assert (reg + [r])[..|reg|] == reg;
    NamesAreRegistered(reg, name);
    if name != DEFAULT_NAMESPACE && r.name != DEFAULT_NAMESPACE && r.name !in Names(reg) {
      PositionSnoc(Names(reg), name, r.name);
    }
  }

  lemma IndexBound(reg: Registry, name: string)
    ensures Index(reg, name) <= |reg| + 1
  {
    NamesAreRegistered(reg, name);
  }

  /** What Known must recover: every registered name with its index. */
  ghost predicate Recovered(known: map<string, nat>, reg: Registry)
  {
    forall n :: (n in known <==> Registered(reg, n)) && (n in known ==> known[n] == Index(reg, n))
  }

  lemma {:induction false} KnownOutside(site: Site, files: seq<File>)
    requires AllOutside(site, files)
    ensures Known(site, files) == map[]
    ensures !DispatcherIn(site, files)
    decreases |files|
  {
    if files != [] {
      var f := files[|files| - 1];
      assert Outside(site, f);
      KnownOutside(site, files[..|files| - 1]);
    }
  }

  lemma KnownSnoc(site: Site, files: seq<File>, f: File)
    ensures Known(site, files + [f]) == Note(site, Known(site, files), f.containerPath)
    ensures DispatcherIn(site, files + [f]) <==> DispatcherIn(site, files) || f.containerPath == site.DispatcherPath()
  {
    assert (files + [f])[..|files|] == files;
  }

  lemma NoteScript(site: Site, known: map<string, nat>, reg: Registry, r: Registration)
    requires Recovered(known, reg) && NamespaceName(r.name) && |reg| + 1 < INT64_LIMIT
    ensures Recovered(Note(site, known, PathAfter(site, reg, r.name)), reg + [r])
  {
    var known' := Note(site, known, PathAfter(site, reg, r.name));
    assert (reg + [r])[..|reg|] == reg;
    ParsePrinted(site, Index(reg, r.name), r.name, Slot(reg, r.name));
    IndexBound(reg, r.name);
    ScanPad3(Index(reg, r.name));
    forall n
      ensures n in known' <==> Registered(reg + [r], n)
      ensures n in known' ==> known'[n] == Index(reg + [r], n)
    {
      if Registered(reg, n) || n == r.name {
        IndexStable(reg, r, n);
      }
    }
  }

  lemma KnownScript(site: Site, files: seq<File>, reg: Registry, r: Registration)
    requires Recovered(Known(site, files), reg) && NamespaceName(r.name) && |reg| + 1 < INT64_LIMIT
    ensures Recovered(Known(site, files + [ScriptFile(site, reg, r)]), reg + [r])
    ensures DispatcherIn(site, files + [ScriptFile(site, reg, r)]) <==> DispatcherIn(site, files)
  {
    KnownSnoc(site, files, ScriptFile(site, reg, r));
    NoteScript(site, Known(site, files), reg, r);
    ParsePrinted(site, Index(reg, r.name), r.name, Slot(reg, r.name));
  }

  lemma KnownDispatcher(site: Site, files: seq<File>, last: bool)
    ensures var files' := files + if last then [site.Dispatcher()] else [];
      && Known(site, files') == Known(site, files)
      && (DispatcherIn(site, files') <==> DispatcherIn(site, files) || last)
  {
    KnownSnoc(site, files, site.Dispatcher());
    assert files + [] == files;
  }

  lemma ValidInit(reg: Registry)
    requires ValidNames(reg) && reg != []
    ensures ValidNames(reg[..|reg| - 1]) && NamespaceName(reg[|reg| - 1].name)
  {
    assert reg[|reg| - 1] in reg;
  }

  /** One registration more, with the dispatcher behind it or not. */
  lemma KnownStep(site: Site, files: seq<File>, before: Registry, r: Registration, reg: Registry, last: bool)
    requires reg == before + [r] && Recovered(Known(site, files), before) && NamespaceName(r.name) && |reg| < INT64_LIMIT
    ensures var files' := files + [ScriptFile(site, before, r)] + if last then [site.Dispatcher()] else [];
      && Recovered(Known(site, files'), reg)
      && (DispatcherIn(site, files') <==> DispatcherIn(site, files) || last)
  {
    KnownScript(site, files, before, r);
    KnownDispatcher(site, files + [ScriptFile(site, before, r)], last);
  }

  lemma {:induction false} KnownLayout(site: Site, init: seq<File>, reg: Registry, first: nat)
    requires AllOutside(site, init) && ValidNames(reg) && |reg| < INT64_LIMIT
    ensures Recovered(Known(site, Layout(site, init, reg, first)), reg)
    ensures DispatcherIn(site, Layout(site, init, reg, first)) <==> 0 < first <= |reg|
    decreases |reg|
  {
    if reg == [] {
      KnownOutside(site, init);
      assert forall n :: !Registered(reg, n);
    } else {
      var before, r := reg[..|reg| - 1], reg[|reg| - 1];
      var files := Layout(site, init, before, first);
      assert before + [r] == reg;
      ValidInit(reg);
      KnownLayout(site, init, before, first);
      KnownStep(site, files, before, r, reg, |reg| == first);
    }
  }

  /** Counting the known names other than the default one gives the length of the list of names. */
  lemma CountRecovered(known: map<string, nat>, reg: Registry)
    requires Recovered(known, reg)
    ensures |known.Keys - {DEFAULT_NAMESPACE}| == |Names(reg)|
  {
    var names := Names(reg);
    NamesDistinct(reg);
    forall n
      ensures n in names <==> n in known.Keys - {DEFAULT_NAMESPACE}
    {
      NamesAreRegistered(reg, n);
    }
    DistinctCount(names, known.Keys - {DEFAULT_NAMESPACE});
  }

  lemma {:induction false} DistinctCount(names: seq<string>, s: set<string>)
    requires forall i, j :: 0 <= i < j < |names| ==> names[i] != names[j]
    requires forall n :: n in names <==> n in s
    ensures |s| == |names|
    decreases |names|
  {
    if names == [] {
      assert s == {};
    } else {
      var rest := names[1..];
      assert forall n :: n in rest <==> n in s - {names[0]};
      DistinctCount(rest, s - {names[0]});
    }
  }

  /** The directory the allocator works out is the one the registry gives. */
  lemma ResolvedDir(site: Site, known: map<string, nat>, reg: Registry, name: string)
    requires CleanRoot(site.root) && Recovered(known, reg) && NamespaceName(name)
    ensures NamespaceDir(site, known, name) == SubDir(site, Index(reg, name), name)
  {
    JoinPrinted(site, Index(reg, name), name, 0);
    if name !in known {
      if name == DEFAULT_NAMESPACE {
        assert Pad3(0) == "000" by {
          assert Decimal(0) == "0";
        }
        assert "000-" + DEFAULT_NAMESPACE == Sub(0, name);
      } else {
        NamesAreRegistered(reg, name);
        CountRecovered(known, reg);
      }
    }
  }

  // ---------- Counting the scripts of a namespace ----------

  lemma CmdCountSnoc(files: seq<File>, f: File, dir: string)
    ensures CmdCount(files + [f], dir) == CmdCount(files, dir) + if CmdFileIn(f, dir) then 1 else 0
  {
    assert (files + [f])[..|files|] == files;
  }

  lemma {:induction false} CmdCountOutside(site: Site, files: seq<File>, idx: nat, name: string)
    requires AllOutside(site, files)
    ensures CmdCount(files, SubDir(site, idx, name)) == 0
    decreases |files|
  {
    if files != [] {
      var f := files[|files| - 1];
      assert Outside(site, f);
      CmdCountOutside(site, files[..|files| - 1], idx, name);
      assert SubDir(site, idx, name)[..|site.Prefix()|] == site.Prefix();
    }
  }

  lemma DispatcherIsNoScript(site: Site, dir: string)
    ensures !CmdFileIn(site.Dispatcher(), dir)
  {
    var p := site.DispatcherPath();
    assert p[|p| - 7..][3] == p[|p| - 4] == 'n';
  }

  lemma CmdCountDispatcher(site: Site, files: seq<File>, last: bool, dir: string)
    ensures CmdCount(files + (if last then [site.Dispatcher()] else []), dir) == CmdCount(files, dir)
  {
    CmdCountSnoc(files, site.Dispatcher(), dir);
    DispatcherIsNoScript(site, dir);
    assert files + [] == files;
  }

  /** A script counts for the directory of its own namespace only. */
  lemma ScriptCounts(site: Site, reg: Registry, r: Registration, idx: nat, name: string)
    requires CleanRoot(site.root) && NamespaceName(r.name) && NamespaceName(name)
    requires r.name == name ==> idx == Index(reg, name)
    ensures CmdFileIn(ScriptFile(site, reg, r), SubDir(site, idx, name)) <==> r.name == name
  {
    DirOfScript(site, Index(reg, r.name), r.name, Slot(reg, r.name));
    if SubDir(site, idx, name) == SubDir(site, Index(reg, r.name), r.name) {
      assert SubDir(site, idx, name)[|site.Prefix()|..] == Sub(idx, name);
      assert SubDir(site, Index(reg, r.name), r.name)[|site.Prefix()|..] == Sub(Index(reg, r.name), r.name);
      SubInjective(idx, name, Index(reg, r.name), r.name);
    }
  }

  lemma CmdCountStep(site: Site, files: seq<File>, reg: Registry, r: Registration, last: bool, idx: nat, name: string)
    requires CleanRoot(site.root) && NamespaceName(r.name) && NamespaceName(name)
    requires r.name == name ==> idx == Index(reg, name)
    ensures var files' := files + [ScriptFile(site, reg, r)] + if last then [site.Dispatcher()] else [];
      CmdCount(files', SubDir(site, idx, name)) == CmdCount(files, SubDir(site, idx, name)) + if r.name == name then 1 else 0
  {
    var dir, f := SubDir(site, idx, name), ScriptFile(site, reg, r);
    ScriptCounts(site, reg, r, idx, name);
    CmdCountSnoc(files, f, dir);
    CmdCountDispatcher(site, files + [f], last, dir);
  }

  /** Counting files recovers how many commands the registry has for a namespace. */
  lemma {:induction false} CmdCountLayout(site: Site, init: seq<File>, reg: Registry, first: nat, idx: nat, name: string)
    requires CleanRoot(site.root) && AllOutside(site, init) && ValidNames(reg) && NamespaceName(name)
    requires Registered(reg, name) ==> idx == Index(reg, name)
    ensures CmdCount(Layout(site, init, reg, first), SubDir(site, idx, name)) == Slot(reg, name)
    decreases |reg|
  {
    if reg == [] {
      CmdCountOutside(site, init, idx, name);
    } else {
      var before, r := reg[..|reg| - 1], reg[|reg| - 1];
      var files := Layout(site, init, before, first);
      assert before + [r] == reg;
      ValidInit(reg);
      if Registered(before, name) || r.name == name {
        IndexStable(before, r, name);
      }
      CmdCountLayout(site, init, before, first, idx, name);
      CmdCountStep(site, files, before, r, |reg| == first, idx, name);
    }
  }

  // ---------- One call, then a whole run ----------

  lemma {:induction false} RegsGrow(reg: Registry, name: string, contents: seq<string>)
    ensures Slot(reg + Regs(name, contents), name) == Slot(reg, name) + |contents|
    ensures Index(reg + Regs(name, contents), name) == Index(reg, name)
    decreases |contents|
  {
    if contents == [] {
      assert reg + Regs(name, contents) == reg;
    } else {
      var some, r := contents[..|contents| - 1], Registration(name, contents[|contents| - 1]);
      var before := reg + Regs(name, some);
      RegsGrow(reg, name, some);
      RegsSnoc(reg, name, contents);
      IndexStable(before, r, name);
      assert (before + [r])[..|before|] == before;
    }
  }

  lemma RegsSnoc(reg: Registry, name: string, contents: seq<string>)
    requires contents != []
    ensures var last := |contents| - 1;
      reg + Regs(name, contents) == (reg + Regs(name, contents[..last])) + [Registration(name, contents[last])]
  {
  }

  lemma ScriptsSnoc(dir: string, start: nat, contents: seq<string>)
    requires contents != []
    ensures var last := |contents| - 1;
      Scripts(dir, start, contents) == Scripts(dir, start, contents[..last]) + [ScriptAt(dir, start + last, contents[last])]
  {
  }

  lemma LayoutSnoc(site: Site, init: seq<File>, reg: Registry, r: Registration, first: nat)
    requires first != |reg| + 1
    ensures Layout(site, init, reg + [r], first) == Layout(site, init, reg, first) + [ScriptFile(site, reg, r)]
  {
    assert (reg + [r])[..|reg|] == reg;
  }

  /** The script that a registration gets after `some` more of its own namespace. */
  lemma GrownPath(site: Site, reg: Registry, name: string, some: seq<string>)
    ensures PathAfter(site, reg + Regs(name, some), name) == ScriptPath(site, Index(reg, name), name, Slot(reg, name) + |some|)
  {
    RegsGrow(reg, name, some);
  }

  lemma GrownFile(site: Site, reg: Registry, name: string, some: seq<string>, content: string)
    requires CleanRoot(site.root) && NamespaceName(name)
    ensures ScriptFile(site, reg + Regs(name, some), Registration(name, content))
         == File(content, Join(SubDir(site, Index(reg, name), name), CmdName(Slot(reg, name) + |some|)), FILE_MODE)
  {
    GrownPath(site, reg, name, some);
    JoinPrinted(site, Index(reg, name), name, Slot(reg, name) + |some|);
    assert ScriptFile(site, reg + Regs(name, some), Registration(name, content)).containerPath
        == PathAfter(site, reg + Regs(name, some), name);
  }

  /** Registering more commands of one namespace appends exactly their scripts. */
  lemma {:induction false} LayoutGrows(site: Site, init: seq<File>, reg: Registry, name: string, contents: seq<string>, first: nat)
    requires CleanRoot(site.root) && NamespaceName(name)
    requires first <= |reg| || first > |reg| + |contents|
    ensures Layout(site, init, reg + Regs(name, contents), first)
         == Layout(site, init, reg, first) + Scripts(SubDir(site, Index(reg, name), name), Slot(reg, name), contents)
    decreases |contents|
  {
    var dir, start := SubDir(site, Index(reg, name), name), Slot(reg, name);
    if contents == [] {
      assert reg + Regs(name, contents) == reg;
      assert Scripts(dir, start, contents) == [];
    } else {
      var last := |contents| - 1;
      var some := contents[..last];
      LayoutGrows(site, init, reg, name, some, first);
      LayoutGrowsByOne(site, init, reg, name, contents, first);
      assert Layout(site, init, reg, first) + (Scripts(dir, start, some) + [Scripts(dir, start, contents)[last]])
          == (Layout(site, init, reg, first) + Scripts(dir, start, some)) + [Scripts(dir, start, contents)[last]];
    }
  }

  lemma LayoutGrowsByOne(site: Site, init: seq<File>, reg: Registry, name: string, contents: seq<string>, first: nat)
    requires CleanRoot(site.root) && NamespaceName(name) && contents != []
    requires first <= |reg| || first > |reg| + |contents|
    ensures var dir, start, last := SubDir(site, Index(reg, name), name), Slot(reg, name), |contents| - 1;
      && Layout(site, init, reg + Regs(name, contents), first)
         == Layout(site, init, reg + Regs(name, contents[..last]), first) + [Scripts(dir, start, contents)[last]]
      && Scripts(dir, start, contents) == Scripts(dir, start, contents[..last]) + [Scripts(dir, start, contents)[last]]
  {
    var some, content := contents[..|contents| - 1], contents[|contents| - 1];
    RegsSnoc(reg, name, contents);
    LayoutSnoc(site, init, reg + Regs(name, some), Registration(name, content), first);
    GrownFile(site, reg, name, some, content);
    ScriptsSnoc(SubDir(site, Index(reg, name), name), Slot(reg, name), contents);
  }

  lemma {:induction false} LayoutUnmarked(site: Site, init: seq<File>, reg: Registry, first: nat)
    requires first > |reg|
    ensures Layout(site, init, reg, first) == Layout(site, init, reg, 0)
    decreases |reg|
  {
    if reg != [] {
      LayoutUnmarked(site, init, reg[..|reg| - 1], first);
    }
  }

  /** `first` marks where the dispatcher stands: after the scripts of the first call. */
  predicate Marked(reg: Registry, first: nat)
  {
    if reg == [] then first == 0 else 0 < first <= |reg|
  }

  /** One successful call turns the layout of a registry into the layout of the extended registry. */
  lemma CallFollowsRegistry(site: Site, init: seq<File>, reg: Registry, first: nat, name: string, contents: seq<string>)
    requires CleanRoot(site.root) && AllOutside(site, init) && ValidNames(reg) && NamespaceName(name)
    requires Marked(reg, first) && contents != [] && |reg| < INT64_LIMIT
    ensures Appended(site, Layout(site, init, reg, first), name, contents)
         == Layout(site, init, reg + Regs(name, contents), if reg == [] then |contents| else first)
  {
    var files := Layout(site, init, reg, first);
    var idx := Index(reg, name);
    KnownLayout(site, init, reg, first);
    ResolvedDir(site, Known(site, files), reg, name);
    CmdCountLayout(site, init, reg, first, idx, name);
    var scripts := Scripts(SubDir(site, idx, name), Slot(reg, name), contents);
    if reg != [] {
      LayoutGrows(site, init, reg, name, contents, first);
      assert files + scripts + [] == files + scripts;
    } else {
      FirstCall(site, init, name, contents);
    }
  }

  /** The first call also writes the dispatcher, behind its scripts. */
  lemma FirstCall(site: Site, init: seq<File>, name: string, contents: seq<string>)
    requires CleanRoot(site.root) && NamespaceName(name) && contents != []
    ensures Layout(site, init, [] + Regs(name, contents), |contents|)
         == init + Scripts(SubDir(site, Index([], name), name), 0, contents) + [site.Dispatcher()]
  {
    var all := [] + Regs(name, contents);
    LayoutGrows(site, init, [], name, contents, 0);
    LayoutUnmarked(site, init, all[..|all| - 1], |contents|);
  }

  lemma {:induction false} RegistryValid(calls: seq<Call>)
    ensures ValidNames(RegistryOf(calls)) && Marked(RegistryOf(calls), FirstSize(calls))
    decreases |calls|
  {
    if calls != [] {
      RegistryValid(calls[..|calls| - 1]);
      CallValid(calls[|calls| - 1]);
    }
  }

  lemma CallValid(call: Call)
    ensures NamespaceName(CallName(call)) || Contents(call).Err?
    ensures Contents(call).Ok? ==> Contents(call).value != []
  {
    assert NamespaceName(DEFAULT_NAMESPACE) by {
      assert forall i :: 0 <= i < 7 ==> NamespaceChar(DEFAULT_NAMESPACE[i]);
    }
    if Contents(call).Ok? {
      assert Collect(Renderings(call.execs)).value != [];
    }
  }

  /**
   * Over every sequence of the two options, starting from files with no place in the durable
   * startup directory: re-parsing the printed paths gives the layout of the registry.
   */
  lemma {:induction false} RunsFollowRegistry(site: Site, init: seq<File>, calls: seq<Call>)
    requires CleanRoot(site.root) && AllOutside(site, init)
    requires |RegistryOf(calls)| < INT64_LIMIT
    ensures AfterCalls(site, init, calls) == Layout(site, init, RegistryOf(calls), FirstSize(calls))
    decreases |calls|
  {
    if calls != [] {
      var earlier, call := calls[..|calls| - 1], calls[|calls| - 1];
      RunsFollowRegistry(site, init, earlier);
      RegistryValid(earlier);
      CallValid(call);
      var reg := RegistryOf(earlier);
      match Contents(call)
      case Err(_) =>
        assert reg + [] == reg;
      case Ok(contents) =>
        CallFollowsRegistry(site, init, reg, FirstSize(earlier), CallName(call), contents);
    }
  }
}
