/**
 * container/durable_startup.go among foreign files: `resolveDurableNamespaceDir` gives a new
 * namespace the number of names it knows, plus one, without looking at which indices are taken.
 * `GivenOutExactly` says which indices new namespaces come to get, and `NeverClashesExactly` for which
 * initial files none of them is the index of a directory that was there before.
 */
module DurableForeign {
  import opened GoStrings
  import opened Lists
  import opened Results
  import opened GoPath
  import opened DurableScript
  import opened DurableAllocator
  import opened DurableDispatch
  import opened DurableLayout
  import opened DurableStartup

  // ---------- What the scan reads off the paths ----------

  /** The path is under `NUMBER-NAME/` in the startup directory. */
  ghost predicate Under(site: Site, p: string, number: string, name: string)
  {
    exists rest :: p == site.Prefix() + (number + ['-'] + name + ['/'] + rest)
  }

  lemma UnderParses(site: Site, p: string, number: string, name: string)
    requires p != site.DispatcherPath() && Under(site, p, number, name)
    requires number != "" && name != "" && '-' !in number && '/' !in number && '/' !in name
    ensures PathEntry(site, p) == Some((name, number))
  {
    var rest :| p == site.Prefix() + (number + ['-'] + name + ['/'] + rest);
    var rel := number + ['-'] + name + ['/'] + rest;
    TakenApart(site.Prefix(), rel);
    RelParses(rel, number, name, rest);
    assert site.Prefix() <= p && p[|site.Prefix()|..] == rel;
  }

  lemma RelParses(rel: string, number: string, name: string, rest: string)
    requires rel == number + ['-'] + name + ['/'] + rest && '-' !in number && '/' !in number && '/' !in name
    ensures var sub := number + ['-'] + name;
      && IndexOf(rel, '/') == |sub| && rel[..|sub|] == sub
      && IndexOf(sub, '-') == |number| && sub[..|number|] == number && sub[|number| + 1..] == name
  {
    var sub := number + ['-'] + name;
    assert '/' !in sub;
    JoinedAt(sub, '/', rest);
    JoinedAt(number, '-', name);
  }

  lemma JoinedAt(a: string, c: char, b: string)
    requires c !in a
    ensures var s := a + [c] + b; IndexOf(s, c) == |a| && s[..|a|] == a && s[|a| + 1..] == b
  {
    IndexOfJoined(a, c, b);
  }

  lemma SplitsAt(s: string, c: char)
    requires c in s
    ensures var i := IndexOf(s, c); s == s[..i] + [c] + s[i + 1..] && c !in s[..i]
  {
  }

  lemma PartsOf(rel: string, number: string, name: string)
    requires '/' in rel
    requires var sub := rel[..IndexOf(rel, '/')];
      '-' in sub && number == sub[..IndexOf(sub, '-')] && name == sub[IndexOf(sub, '-') + 1..]
    ensures rel == number + ['-'] + name + ['/'] + rel[IndexOf(rel, '/') + 1..]
    ensures '-' !in number && '/' !in number && '/' !in name
  {
    var sub := rel[..IndexOf(rel, '/')];
    SplitsAt(rel, '/');
    SplitsAt(sub, '-');
    assert forall i :: 0 <= i < |number| ==> number[i] == sub[i];
    assert forall i :: 0 <= i < |name| ==> name[i] == sub[|number| + 1 + i];
  }

  lemma ParsedIsUnder(site: Site, p: string, number: string, name: string)
    requires PathEntry(site, p) == Some((name, number))
    ensures p != site.DispatcherPath() && Under(site, p, number, name)
    ensures number != "" && name != "" && '-' !in number && '/' !in number && '/' !in name
  {
    var rel := p[|site.Prefix()|..];
    PartsOf(rel, number, name);
    UnderBy(site, p, number, name, rel[IndexOf(rel, '/') + 1..]);
  }

  lemma UnderBy(site: Site, p: string, number: string, name: string, rest: string)
    requires site.Prefix() <= p && p[|site.Prefix()|..] == number + ['-'] + name + ['/'] + rest
    ensures Under(site, p, number, name)
  {
    assert p == site.Prefix() + p[|site.Prefix()|..];
  }

  /** A path belongs to a namespace exactly if it is under `NUMBER-NAME/`, where the first `-` ends the number. */
  lemma ParseExactly(site: Site, p: string, number: string, name: string)
    ensures PathEntry(site, p) == Some((name, number)) <==>
      && p != site.DispatcherPath() && Under(site, p, number, name)
      && number != "" && name != "" && '-' !in number && '/' !in number && '/' !in name
  {
    if PathEntry(site, p) == Some((name, number)) {
      ParsedIsUnder(site, p, number, name);
    } else if p != site.DispatcherPath() && Under(site, p, number, name)
              && number != "" && name != "" && '-' !in number && '/' !in number && '/' !in name {
      UnderParses(site, p, number, name);
    }
  }

  /** The index that a file shows for a name, if it shows one that can be read. */
  function ShownFor(site: Site, f: File, name: string): Option<nat>
  {
    match PathEntry(site, f.containerPath)
    case None => None
    case Some((n, number)) => if n == name then ScanInt(number) else None
  }

  function AllShown(site: Site, files: seq<File>, name: string): seq<Option<nat>>
  {
    seq(|files|, i requires 0 <= i < |files| => ShownFor(site, files[i], name))
  }

  function KnownIndex(known: map<string, nat>, name: string): Option<nat>
  {
    if name in known then Some(known[name]) else None
  }

  lemma NoteShown(site: Site, known: map<string, nat>, f: File, name: string)
    ensures KnownIndex(Note(site, known, f.containerPath), name) ==
      if KnownIndex(known, name).Some? then KnownIndex(known, name) else ShownFor(site, f, name)
  {
  }

  lemma AllShownSnoc(site: Site, files: seq<File>, name: string)
    requires files != []
    ensures var last := |files| - 1; AllShown(site, files, name) == AllShown(site, files[..last], name) + [ShownFor(site, files[last], name)]
  {
  }

  lemma KnownShown(site: Site, files: seq<File>, name: string)
    requires files != []
    ensures var last := |files| - 1;
      var before := KnownIndex(Known(site, files[..last]), name);
      KnownIndex(Known(site, files), name) == if before.Some? then before else ShownFor(site, files[last], name)
  {
    NoteShown(site, Known(site, files[..|files| - 1]), files[|files| - 1], name);
  }

  /** What is known of a name is the index that the first file shows for it of those that show one. */
  lemma {:induction false} KnownIsFirst(site: Site, files: seq<File>, name: string)
    ensures IsFirst(AllShown(site, files, name), KnownIndex(Known(site, files), name))
    decreases |files|
  {
    if files != [] {
      var last := |files| - 1;
      KnownIsFirst(site, files[..last], name);
      KnownShown(site, files, name);
      FirstOfMore(AllShown(site, files[..last], name), KnownIndex(Known(site, files[..last]), name), ShownFor(site, files[last], name));
      AllShownSnoc(site, files, name);
    }
  }

  /** The paths that count for a directory. */
  function CmdPath(f: File, dir: string): Option<string>
  {
    if Dir(f.containerPath) == dir && HasSuffix(f.containerPath, "-cmd.sh") then Some(f.containerPath) else None
  }

  function CmdPaths(files: seq<File>, dir: string): seq<Option<string>>
  {
    seq(|files|, i requires 0 <= i < |files| => CmdPath(files[i], dir))
  }

  /** What is counted is how many files lie directly in the directory and end in `-cmd.sh`. */
  lemma {:induction false} CountsCommands(files: seq<File>, dir: string) returns (at: seq<nat>, paths: seq<string>)
    ensures Picks(CmdPaths(files, dir), at, paths) && CmdCount(files, dir) == |paths|
    decreases |files|
  {
    if files == [] {
      at, paths := [], [];
    } else {
      var last := |files| - 1;
      at, paths := CountsCommands(files[..last], dir);
      at := PicksMore(CmdPaths(files[..last], dir), at, paths, CmdPath(files[last], dir));
      paths := paths + if CmdPath(files[last], dir).Some? then [files[last].containerPath] else [];
      assert CmdPaths(files[..last], dir) + [CmdPath(files[last], dir)] == CmdPaths(files, dir);
    }
  }

  // ---------- The names known ----------

  function NonDefault(known: map<string, nat>): set<string>
  {
    known.Keys - {DEFAULT_NAMESPACE}
  }

  /** The index a name gets when it is first registered. */
  function NewIndex(known: map<string, nat>, name: string): nat
  {
    if name == DEFAULT_NAMESPACE then 0 else |NonDefault(known)| + 1
  }

  /** What is known after a name has been registered. */
  function Learn(known: map<string, nat>, name: string): map<string, nat>
  {
    if name in known then known else known[name := NewIndex(known, name)]
  }

  function LearnAll(known: map<string, nat>, names: seq<string>): map<string, nat>
  {
    if names == [] then known else Learn(LearnAll(known, names[..|names| - 1]), names[|names| - 1])
  }

  // ---------- What one call does to the known names ----------

  lemma NamespaceDirIs(site: Site, known: map<string, nat>, name: string)
    requires CleanRoot(site.root) && NamespaceName(name)
    ensures NamespaceDir(site, known, name) == SubDir(site, if name in known then known[name] else NewIndex(known, name), name)
  {
    var idx := if name in known then known[name] else NewIndex(known, name);
    JoinPrinted(site, idx, name, 0);
    if name !in known && name == DEFAULT_NAMESPACE {
      assert Pad3(0) == "000" by {
        assert Decimal(0) == "0";
      }
      assert "000-" + DEFAULT_NAMESPACE == Sub(0, name);
    }
  }

  lemma NoteKnown(site: Site, known: map<string, nat>, idx: nat, name: string, slot: nat)
    requires NamespaceName(name) && idx < INT64_LIMIT
    ensures Note(site, known, ScriptPath(site, idx, name, slot)) == if name in known then known else known[name := idx]
  {
    ParsePrinted(site, idx, name, slot);
    ScanPad3(idx);
  }

  lemma {:induction false} KnownScripts(site: Site, files: seq<File>, idx: nat, name: string, start: nat, contents: seq<string>)
    requires CleanRoot(site.root) && NamespaceName(name) && contents != []
    requires name in Known(site, files) || idx < INT64_LIMIT
    ensures Known(site, files + Scripts(SubDir(site, idx, name), start, contents)) ==
      if name in Known(site, files) then Known(site, files) else Known(site, files)[name := idx]
    decreases |contents|
  {
    var last, dir := |contents| - 1, SubDir(site, idx, name);
    var f := ScriptAt(dir, start + last, contents[last]);
    var before := files + Scripts(dir, start, contents[..last]);
    ScriptsSnoc(dir, start, contents);
    assert files + Scripts(dir, start, contents) == before + [f];
    KnownSnoc(site, before, f);
    JoinPrinted(site, idx, name, start + last);
    ParsePrinted(site, idx, name, start + last);
    if last > 0 {
      KnownScripts(site, files, idx, name, start, contents[..last]);
    } else {
      assert before == files;
    }
    if idx < INT64_LIMIT {
      NoteKnown(site, Known(site, before), idx, name, start + last);
    }
  }

  /** A call that succeeds keeps all known names with their indices, and may add its own. */
  lemma KnownAfterAppend(site: Site, files: seq<File>, name: string, contents: seq<string>)
    requires CleanRoot(site.root) && NamespaceName(name) && contents != []
    requires |NonDefault(Known(site, files))| + 1 < INT64_LIMIT
    ensures Known(site, Appended(site, files, name, contents)) == Learn(Known(site, files), name)
  {
    var known := Known(site, files);
    var idx := if name in known then known[name] else NewIndex(known, name);
    var dir := NamespaceDir(site, known, name);
    NamespaceDirIs(site, known, name);
    var scripts := Scripts(dir, CmdCount(files, dir), contents);
    KnownScripts(site, files, idx, name, CmdCount(files, dir), contents);
    KnownDispatcher(site, files + scripts, !DispatcherIn(site, files));
  }

  lemma SetGrows(s: set<string>, name: string, other: string)
    requires name !in s
    ensures |(s + {name}) - {other}| == |s - {other}| + if name == other then 0 else 1
  {
    if name == other {
      assert (s + {name}) - {other} == s && s - {other} == s;
    } else {
      var rest := s - {other};
      assert (s + {name}) - {other} == rest + {name};
      assert name !in rest;
    }
  }

  lemma OtherKeysGrow(known: map<string, nat>, name: string, idx: nat, other: string)
    requires name !in known
    ensures |known[name := idx].Keys - {other}| == |known.Keys - {other}| + if name == other then 0 else 1
  {
    SetGrows(known.Keys, name, other);
    assert known[name := idx].Keys == known.Keys + {name};
  }

  lemma NonDefaultGrows(known: map<string, nat>, name: string, idx: nat)
    requires name !in known
    ensures |NonDefault(known[name := idx])| == |NonDefault(known)| + if name == DEFAULT_NAMESPACE then 0 else 1
  {
    OtherKeysGrow(known, name, idx, DEFAULT_NAMESPACE);
  }

  lemma LearnGrows(known: map<string, nat>, name: string)
    ensures |NonDefault(known)| <= |NonDefault(Learn(known, name))| <= |NonDefault(known)| + 1
    ensures name !in known && name != DEFAULT_NAMESPACE ==> |NonDefault(Learn(known, name))| == |NonDefault(known)| + 1
  {
    if name !in known {
      NonDefaultGrows(known, name, NewIndex(known, name));
    }
  }

  // ---------- Whole runs ----------

  /** The names known after a run of the options. */
  function KnownAfter(site: Site, init: seq<File>, calls: seq<Call>): map<string, nat>
  {
    Known(site, AfterCalls(site, init, calls))
  }

  predicate Successful(call: Call)
  {
    Contents(call).Ok?
  }

  /** The names of the calls that succeed. */
  function NamesOf(calls: seq<Call>, succeeds: Call -> bool): seq<string>
  {
    if calls == [] then []
    else
      var call := calls[|calls| - 1];
      NamesOf(calls[..|calls| - 1], succeeds) + if succeeds(call) then [CallName(call)] else []
  }

  /** No more names than a Go int can count. */
  predicate Countable(known: map<string, nat>, names: seq<string>)
  {
    |NonDefault(known)| + |names| < INT64_LIMIT
  }

  lemma {:induction false} LearnAllGrows(known: map<string, nat>, names: seq<string>)
    ensures |NonDefault(known)| <= |NonDefault(LearnAll(known, names))| <= |NonDefault(known)| + |names|
    decreases |names|
  {
    if names != [] {
      LearnAllGrows(known, names[..|names| - 1]);
      LearnGrows(LearnAll(known, names[..|names| - 1]), names[|names| - 1]);
    }
  }

  lemma LearnAllSnoc(known: map<string, nat>, names: seq<string>, name: string)
    ensures LearnAll(known, names + [name]) == Learn(LearnAll(known, names), name)
  {
    assert (names + [name])[..|names|] == names;
  }

  /** What the scan of the files knows after a run: the foreign names, and the registered ones in order. */
  lemma {:induction false} RunLearns(site: Site, init: seq<File>, calls: seq<Call>)
    requires CleanRoot(site.root) && Countable(Known(site, init), NamesOf(calls, Successful))
    ensures KnownAfter(site, init, calls) == LearnAll(Known(site, init), NamesOf(calls, Successful))
    decreases |calls|
  {
    if calls != [] {
      RunLearns(site, init, calls[..|calls| - 1]);
      CallLearns(site, init, calls);
    }
  }

  lemma CallLearns(site: Site, init: seq<File>, calls: seq<Call>)
    requires CleanRoot(site.root) && Countable(Known(site, init), NamesOf(calls, Successful)) && calls != []
    requires var before := calls[..|calls| - 1]; KnownAfter(site, init, before) == LearnAll(Known(site, init), NamesOf(before, Successful))
    ensures KnownAfter(site, init, calls) == LearnAll(Known(site, init), NamesOf(calls, Successful))
  {
    var before, call := calls[..|calls| - 1], calls[|calls| - 1];
    CallValid(call);
    if Contents(call).Ok? {
      LearnAllGrows(Known(site, init), NamesOf(before, Successful));
      KnownAfterAppend(site, AfterCalls(site, init, before), CallName(call), Contents(call).value);
      LearnAllSnoc(Known(site, init), NamesOf(before, Successful), CallName(call));
    } else {
      assert NamesOf(before, Successful) + [] == NamesOf(before, Successful);
    }
  }

  /** The names known at the start keep their indices; `aside`, if new, has 0, and the other new ones are above `count`. */
  ghost predicate NewAbove(start: map<string, nat>, now: map<string, nat>, aside: string, count: nat)
  {
    && (forall n :: n in start ==> n in now && now[n] == start[n])
    && (forall n :: n in now && n !in start ==> if n == aside then now[n] == 0 else now[n] > count)
  }

  lemma NewAboveStep(start: map<string, nat>, now: map<string, nat>, aside: string, count: nat, name: string, idx: nat)
    requires NewAbove(start, now, aside, count) && name !in now && (if name == aside then idx == 0 else idx > count)
    ensures NewAbove(start, now[name := idx], aside, count)
  {
  }

  /** The foreign names stay as they are; new ones get indices above the number of the foreign ones. */
  ghost predicate Grown(start: map<string, nat>, now: map<string, nat>)
  {
    |NonDefault(start)| <= |NonDefault(now)| && NewAbove(start, now, DEFAULT_NAMESPACE, |NonDefault(start)|)
  }

  lemma GrownStep(start: map<string, nat>, now: map<string, nat>, name: string)
    requires Grown(start, now)
    ensures Grown(start, Learn(now, name))
  {
    LearnGrows(now, name);
    if name !in now {
      NewAboveStep(start, now, DEFAULT_NAMESPACE, |NonDefault(start)|, name, NewIndex(now, name));
    }
  }

  lemma {:induction false} LearningGrows(start: map<string, nat>, names: seq<string>)
    ensures Grown(start, LearnAll(start, names))
    decreases |names|
  {
    if names != [] {
      LearningGrows(start, names[..|names| - 1]);
      GrownStep(start, LearnAll(start, names[..|names| - 1]), names[|names| - 1]);
    }
  }

  // ---------- When an index is given out twice ----------

  /** The index that a path shows, whatever name stands behind it and whether or not that was seen before. */
  function PathIndex(site: Site, p: string): Option<nat>
  {
    match PathEntry(site, p)
    case None => None
    case Some((_, number)) => ScanInt(number)
  }

  ghost predicate Shown(site: Site, files: seq<File>, idx: nat)
  {
    exists f :: f in files && PathIndex(site, f.containerPath) == Some(idx)
  }

  /** The name `m` is new and has the index `idx`. */
  predicate NewAt(start: map<string, nat>, now: map<string, nat>, m: string, idx: nat)
  {
    m in now && m !in start && now[m] == idx
  }

  /** Some run of the options gives `idx` to a namespace that was not there before. */
  ghost predicate GivenOut(site: Site, init: seq<File>, idx: nat)
  {
    exists calls, m ::
      && Countable(Known(site, init), NamesOf(calls, Successful))
      && NewAt(Known(site, init), KnownAfter(site, init, calls), m, idx)
  }

  /** Above the number of the names known, or the index of the default one if that is not known. */
  predicate Open(known: map<string, nat>, idx: nat)
  {
    idx > |NonDefault(known)| || (idx == 0 && DEFAULT_NAMESPACE !in known)
  }

  /** No run of the options gives a new namespace an index that a path shows from the start. */
  ghost predicate NeverClashes(site: Site, init: seq<File>)
  {
    forall idx: nat :: Shown(site, init, idx) ==> !GivenOut(site, init, idx)
  }

  /** No path shows an index above the number of the names known, nor 0 unless the default name is known. */
  ghost predicate NoneOpen(site: Site, init: seq<File>)
  {
    forall idx: nat :: Shown(site, init, idx) ==>
      idx <= |NonDefault(Known(site, init))| && (idx == 0 ==> DEFAULT_NAMESPACE in Known(site, init))
  }

  // ---------- New names that reach any index ----------

  /** A name of `n` letters. */
  function LongName(n: nat): (s: string)
    requires n > 0
    ensures |s| == n && NamespaceName(s) && s != DEFAULT_NAMESPACE
  {
    var s := seq(n, i => 'a');
    assert s[0] == 'a' && DEFAULT_NAMESPACE[0] == 'd';
    s
  }

  /** `count` names, longer and longer and all longer than `length`. */
  function LongNames(length: nat, count: nat): seq<string>
  {
    if count == 0 then [] else LongNames(length, count - 1) + [LongName(length + count)]
  }

  ghost predicate NoLonger(known: map<string, nat>, length: nat)
  {
    forall n :: n in known ==> |n| <= length
  }

  lemma LearnLonger(known: map<string, nat>, name: string, length: nat)
    requires NoLonger(known, length) && |name| == length + 1 && name != DEFAULT_NAMESPACE
    ensures var now := Learn(known, name);
      && |NonDefault(now)| == |NonDefault(known)| + 1 && NoLonger(now, length + 1)
      && name in now && now[name] == |NonDefault(known)| + 1
  {
    assert name !in known;
    LearnGrows(known, name);
  }

  /** The new names get the indices that follow the number of foreign ones, one after the other. */
  lemma {:induction false} LearnLongNames(start: map<string, nat>, length: nat, count: nat)
    requires NoLonger(start, length)
    ensures |LongNames(length, count)| == count
    ensures var now := LearnAll(start, LongNames(length, count));
      && |NonDefault(now)| == |NonDefault(start)| + count && NoLonger(now, length + count)
      && (count > 0 ==> LongName(length + count) in now && now[LongName(length + count)] == |NonDefault(start)| + count)
    decreases count
  {
    if count > 0 {
      var names, name := LongNames(length, count - 1), LongName(length + count);
      LearnLongNames(start, length, count - 1);
      LearnAllSnoc(start, names, name);
      LearnLonger(LearnAll(start, names), name, length + count - 1);
    }
  }

  /** Registers `e` under each of them. */
  function Filling(e: Executable, length: nat, count: nat): seq<Call>
  {
    if count == 0 then [] else Filling(e, length, count - 1) + [FromDir(LongName(length + count), [e])]
  }

  lemma RegisteringOne(e: Executable, name: string)
    requires Rendered(e).Ok? && NamespaceName(name) && name != DEFAULT_NAMESPACE
    ensures Successful(FromDir(name, [e])) && Successful(Default([e]))
  {
    var rs := Renderings([e]);
    assert rs == [Rendered(e)];
    CollectKeepsAll(rs);
  }

  lemma NamesOfSnoc(calls: seq<Call>, call: Call, succeeds: Call -> bool)
    requires succeeds(call)
    ensures NamesOf(calls + [call], succeeds) == NamesOf(calls, succeeds) + [CallName(call)]
  {
    assert (calls + [call])[..|calls|] == calls;
  }

  lemma {:induction false} FillingNames(e: Executable, length: nat, count: nat, succeeds: Call -> bool)
    requires forall n: nat :: n > length ==> succeeds(FromDir(LongName(n), [e]))
    ensures NamesOf(Filling(e, length, count), succeeds) == LongNames(length, count)
    decreases count
  {
    if count > 0 {
      FillingNames(e, length, count - 1, succeeds);
      NamesOfSnoc(Filling(e, length, count - 1), FromDir(LongName(length + count), [e]), succeeds);
    }
  }

  lemma {:induction false} LengthBound(names: set<string>) returns (length: nat)
    ensures forall n :: n in names ==> |n| <= length
    decreases |names|
  {
    if names == {} {
      length := 0;
    } else {
      var n :| n in names;
      length := LengthBound(names - {n});
      length := if |n| > length then |n| else length;
    }
  }

  lemma SomeExecutable() returns (e: Executable)
    ensures Rendered(e).Ok?
  {
    e := Executable(["true"], []);
  }

  /** Enough new names come to any index that is above the number of the names known. */
  lemma NamesReachIndex(start: map<string, nat>, idx: nat) returns (length: nat, count: nat)
    requires |NonDefault(start)| < idx < INT64_LIMIT
    ensures count > 0 && Countable(start, LongNames(length, count))
    ensures NewAt(start, LearnAll(start, LongNames(length, count)), LongName(length + count), idx)
  {
    length := LengthBound(start.Keys);
    count := idx - |NonDefault(start)|;
    LearnLongNames(start, length, count);
  }

  /** A run that comes to the index `idx`. */
  lemma AboveIsGivenOut(site: Site, init: seq<File>, idx: nat)
    requires CleanRoot(site.root) && |NonDefault(Known(site, init))| < idx < INT64_LIMIT
    ensures GivenOut(site, init, idx)
  {
    var start := Known(site, init);
    var length, count := NamesReachIndex(start, idx);
    var e := SomeExecutable();
    forall n: nat | n > length
      ensures Successful(FromDir(LongName(n), [e]))
    {
      RegisteringOne(e, LongName(n));
    }
    FillingNames(e, length, count, Successful);
    RunLearns(site, init, Filling(e, length, count));
    assert NewAt(start, KnownAfter(site, init, Filling(e, length, count)), LongName(length + count), idx);
  }

  lemma OneCall(site: Site, init: seq<File>, call: Call)
    requires Contents(call).Ok?
    ensures NamesOf([call], Successful) == [CallName(call)]
    ensures AfterCalls(site, init, [call]) == Appended(site, init, CallName(call), Contents(call).value)
  {
    OneName(call, Successful);
    AfterOne(site, init, call);
  }

  lemma OneName(call: Call, succeeds: Call -> bool)
    requires succeeds(call)
    ensures NamesOf([call], succeeds) == [CallName(call)]
  {
    assert NamesOf([call][..0], succeeds) == [];
  }

  lemma AfterOne(site: Site, init: seq<File>, call: Call)
    ensures AfterCalls(site, init, [call]) == AfterCall(site, init, call)
  {
    assert AfterCalls(site, init, [call][..0]) == init;
  }

  lemma DefaultIsGivenOut(site: Site, init: seq<File>)
    requires CleanRoot(site.root) && Countable(Known(site, init), [DEFAULT_NAMESPACE]) && DEFAULT_NAMESPACE !in Known(site, init)
    ensures GivenOut(site, init, 0)
  {
    var start := Known(site, init);
    var e := SomeExecutable();
    var calls := [Default([e])];
    RegisteringOne(e, LongName(1));
    OneCall(site, init, Default([e]));
    RunLearns(site, init, calls);
    LearnAllSnoc(start, [], DEFAULT_NAMESPACE);
    assert NewAt(start, KnownAfter(site, init, calls), DEFAULT_NAMESPACE, 0);
  }

  /**
   * For all initial files, the indices that runs of the options come to give to new namespaces: those
   * above the number of the names known at the start, and 0 if the default namespace is not among them.
   */
  lemma GivenOutExactly(site: Site, init: seq<File>, idx: nat)
    requires CleanRoot(site.root) && idx < INT64_LIMIT && Countable(Known(site, init), [DEFAULT_NAMESPACE])
    ensures GivenOut(site, init, idx) <==> Open(Known(site, init), idx)
  {
    var start := Known(site, init);
    if GivenOut(site, init, idx) {
      var calls, m :| Countable(start, NamesOf(calls, Successful)) && NewAt(start, KnownAfter(site, init, calls), m, idx);
      RunLearns(site, init, calls);
      LearningGrows(start, NamesOf(calls, Successful));
    }
    if idx > |NonDefault(start)| {
      AboveIsGivenOut(site, init, idx);
    } else if Open(start, idx) {
      DefaultIsGivenOut(site, init);
    }
  }

  /**
   * For all initial files: no run of the options gives a new namespace an index that a path of theirs
   * shows, exactly if all indices shown are at most the number of the names known, and 0 is shown only
   * if the default namespace is known.
   */
  lemma NeverClashesExactly(site: Site, init: seq<File>)
    requires CleanRoot(site.root) && Countable(Known(site, init), [DEFAULT_NAMESPACE])
    ensures NeverClashes(site, init) <==> NoneOpen(site, init)
  {
    forall idx: nat | Shown(site, init, idx)
      ensures GivenOut(site, init, idx) <==> Open(Known(site, init), idx)
    {
      GivenOutExactly(site, init, idx);
    }
  }

  // ---------- When a path is given out twice ----------

  /** In the directory of a name the numbers from the number of its scripts on are free. */
  ghost predicate NumbersFree(site: Site, files: seq<File>, idx: nat, name: string)
  {
    forall slot: nat :: slot >= CmdCount(files, SubDir(site, idx, name)) ==> Unused(files, ScriptPath(site, idx, name, slot))
  }

  /** So they are for all of the names known that the options take. */
  ghost predicate AllNumbersFree(site: Site, files: seq<File>, known: map<string, nat>)
  {
    forall name :: name in known && NamespaceName(name) ==> NumbersFree(site, files, known[name], name)
  }

  /** Every path that a run of the options gives out is one that no file before has. */
  ghost predicate AlwaysNewPaths(site: Site, init: seq<File>)
  {
    forall calls :: Countable(Known(site, init), NamesOf(calls, Successful)) ==> NewPaths(AfterCalls(site, init, calls), |init|)
  }

  /** The script that comes next under a name. */
  function NextScript(site: Site, files: seq<File>, idx: nat, name: string, content: string): File
  {
    ScriptAt(SubDir(site, idx, name), CmdCount(files, SubDir(site, idx, name)), content)
  }

  lemma NextScriptIs(site: Site, files: seq<File>, idx: nat, name: string, content: string)
    requires CleanRoot(site.root) && NamespaceName(name)
    ensures var dir, f := SubDir(site, idx, name), NextScript(site, files, idx, name, content);
      && f.containerPath == ScriptPath(site, idx, name, CmdCount(files, dir))
      && CmdCount(files + [f], dir) == CmdCount(files, dir) + 1
  {
    var dir, f := SubDir(site, idx, name), NextScript(site, files, idx, name, content);
    var slot := CmdCount(files, dir);
    JoinPrinted(site, idx, name, slot);
    DirOfScript(site, idx, name, slot);
    CmdCountSnoc(files, f, dir);
  }

  /** A script takes the next number of its own name, and none of another's. */
  lemma NextScriptKeepsFree(site: Site, files: seq<File>, idx: nat, name: string, content: string, i: nat, n: string)
    requires CleanRoot(site.root) && NamespaceName(name) && NamespaceName(n) && (n == name ==> i == idx)
    requires NumbersFree(site, files, i, n)
    ensures NumbersFree(site, files + [NextScript(site, files, idx, name, content)], i, n)
  {
    var f := NextScript(site, files, idx, name, content);
    NextScriptIs(site, files, idx, name, content);
    CmdCountSnoc(files, f, SubDir(site, i, n));
    forall slot: nat | slot >= CmdCount(files + [f], SubDir(site, i, n))
      ensures Unused(files + [f], ScriptPath(site, i, n, slot))
    {
      assert Unused(files, ScriptPath(site, i, n, slot));
      if f.containerPath == ScriptPath(site, i, n, slot) {
        ScriptPathInjective(site, idx, name, CmdCount(files, SubDir(site, idx, name)), i, n, slot);
      }
    }
  }

  /** So far all is well, and the next script of the directory `dir` has the number `next`. */
  ghost predicate AllNew(site: Site, files: seq<File>, known: map<string, nat>, dir: string, next: nat, from: nat)
  {
    && AllNumbersFree(site, files, known) && NewPaths(files, from)
    && CmdCount(files, dir) == next
  }

  lemma NextScriptIsNew(site: Site, files: seq<File>, known: map<string, nat>, name: string, next: nat, content: string, from: nat)
    requires CleanRoot(site.root) && NamespaceName(name) && name in known
    requires AllNew(site, files, known, SubDir(site, known[name], name), next, from)
    ensures var dir := SubDir(site, known[name], name);
      AllNew(site, files + [ScriptAt(dir, next, content)], known, dir, next + 1, from)
  {
    var f := NextScript(site, files, known[name], name, content);
    NextScriptIs(site, files, known[name], name, content);
    assert NumbersFree(site, files, known[name], name);
    NewPathsSnoc(files, f, from);
    forall n | n in known && NamespaceName(n)
      ensures NumbersFree(site, files + [f], known[n], n)
    {
      NextScriptKeepsFree(site, files, known[name], name, content, known[n], n);
    }
  }

  lemma {:induction false} ScriptsAreNew(site: Site, files: seq<File>, known: map<string, nat>, name: string, next: nat,
                                         contents: seq<string>, from: nat)
    requires CleanRoot(site.root) && NamespaceName(name) && name in known
    requires AllNew(site, files, known, SubDir(site, known[name], name), next, from)
    ensures var dir := SubDir(site, known[name], name);
      AllNew(site, files + Scripts(dir, next, contents), known, dir, next + |contents|, from)
    decreases |contents|
  {
    var dir := SubDir(site, known[name], name);
    if contents == [] {
      assert Scripts(dir, next, contents) == [];
      assert files + [] == files;
    } else {
      var last := |contents| - 1;
      var before := files + Scripts(dir, next, contents[..last]);
      ScriptsAreNew(site, files, known, name, next, contents[..last], from);
      NextScriptIsNew(site, before, known, name, next + last, contents[last], from);
      FilesSnoc(files, dir, next, contents);
    }
  }

  lemma FilesSnoc(files: seq<File>, dir: string, next: nat, contents: seq<string>)
    requires contents != []
    ensures var last := |contents| - 1;
      files + Scripts(dir, next, contents) == files + Scripts(dir, next, contents[..last]) + [ScriptAt(dir, next + last, contents[last])]
  {
    var last := |contents| - 1;
    ScriptsSnoc(dir, next, contents);
    assert files + (Scripts(dir, next, contents[..last]) + [ScriptAt(dir, next + last, contents[last])])
        == files + Scripts(dir, next, contents[..last]) + [ScriptAt(dir, next + last, contents[last])];
  }

  /** No script is the dispatcher. */
  lemma ScriptsLeaveDispatcher(site: Site, files: seq<File>, idx: nat, name: string, next: nat, contents: seq<string>)
    requires CleanRoot(site.root) && NamespaceName(name) && Unused(files, site.DispatcherPath())
    ensures Unused(files + Scripts(SubDir(site, idx, name), next, contents), site.DispatcherPath())
  {
    var scripts := Scripts(SubDir(site, idx, name), next, contents);
    forall f | f in scripts
      ensures f.containerPath != site.DispatcherPath()
    {
      var i :| 0 <= i < |scripts| && scripts[i] == f;
      JoinPrinted(site, idx, name, next + i);
      ParsePrinted(site, idx, name, next + i);
    }
  }

  lemma {:induction false} ShownIsKnown(site: Site, files: seq<File>, f: File, name: string, number: string)
    requires f in files && PathEntry(site, f.containerPath) == Some((name, number)) && ScanInt(number).Some?
    ensures name in Known(site, files)
    decreases |files|
  {
    var last := |files| - 1;
    if f != files[last] {
      assert f in files[..last];
      ShownIsKnown(site, files[..last], f, name, number);
    }
  }

  /** No file lies where the scripts of a name would go that is not known. */
  lemma UnknownIsFree(site: Site, files: seq<File>, idx: nat, name: string)
    requires NamespaceName(name) && name !in Known(site, files) && idx < INT64_LIMIT
    ensures NumbersFree(site, files, idx, name)
  {
    forall slot: nat, f | f in files
      ensures f.containerPath != ScriptPath(site, idx, name, slot)
    {
      if f.containerPath == ScriptPath(site, idx, name, slot) {
        ParsePrinted(site, idx, name, slot);
        ScanPad3(idx);
        ShownIsKnown(site, files, f, name, Pad3(idx));
      }
    }
  }

  lemma {:induction false} NoDispatcherIn(site: Site, files: seq<File>)
    requires !DispatcherIn(site, files)
    ensures Unused(files, site.DispatcherPath())
    decreases |files|
  {
    if files != [] {
      NoDispatcherIn(site, files[..|files| - 1]);
      assert files == files[..|files| - 1] + [files[|files| - 1]];
    }
  }

  lemma DispatcherKeepsFree(site: Site, files: seq<File>, last: bool, idx: nat, name: string)
    requires NamespaceName(name) && NumbersFree(site, files, idx, name)
    ensures NumbersFree(site, files + if last then [site.Dispatcher()] else [], idx, name)
  {
    var files' := files + if last then [site.Dispatcher()] else [];
    CmdCountDispatcher(site, files, last, SubDir(site, idx, name));
    forall slot: nat | slot >= CmdCount(files', SubDir(site, idx, name))
      ensures Unused(files', ScriptPath(site, idx, name, slot))
    {
      assert Unused(files, ScriptPath(site, idx, name, slot));
      ParsePrinted(site, idx, name, slot);
    }
  }

  lemma DispatcherIsNew(site: Site, files: seq<File>, known: map<string, nat>, last: bool, from: nat)
    requires AllNumbersFree(site, files, known) && NewPaths(files, from)
    requires last ==> Unused(files, site.DispatcherPath())
    ensures var files' := files + if last then [site.Dispatcher()] else [];
      AllNumbersFree(site, files', known) && NewPaths(files', from)
  {
    forall n | n in known && NamespaceName(n)
      ensures NumbersFree(site, files + if last then [site.Dispatcher()] else [], known[n], n)
    {
      DispatcherKeepsFree(site, files, last, known[n], n);
    }
    if last {
      NewPathsSnoc(files, site.Dispatcher(), from);
    } else {
      assert files + [] == files;
    }
  }

  /** Learning a name keeps the numbers free. */
  lemma LearnedIsFree(site: Site, files: seq<File>, name: string)
    requires NamespaceName(name) && |NonDefault(Known(site, files))| + 1 < INT64_LIMIT
    requires AllNumbersFree(site, files, Known(site, files))
    ensures AllNumbersFree(site, files, Learn(Known(site, files), name))
  {
    var known := Known(site, files);
    if name !in known {
      UnknownIsFree(site, files, NewIndex(known, name), name);
    }
  }

  lemma CallKeepsNew(site: Site, files: seq<File>, name: string, contents: seq<string>, from: nat)
    requires CleanRoot(site.root) && NamespaceName(name) && contents != []
    requires |NonDefault(Known(site, files))| + 1 < INT64_LIMIT
    requires AllNumbersFree(site, files, Known(site, files)) && NewPaths(files, from)
    ensures var files' := Appended(site, files, name, contents);
      AllNumbersFree(site, files', Known(site, files')) && NewPaths(files', from)
  {
    var known := Learn(Known(site, files), name);
    var dir := SubDir(site, known[name], name);
    NamespaceDirIs(site, Known(site, files), name);
    LearnedIsFree(site, files, name);
    var next := CmdCount(files, dir);
    ScriptsAreNew(site, files, known, name, next, contents, from);
    if !DispatcherIn(site, files) {
      NoDispatcherIn(site, files);
      ScriptsLeaveDispatcher(site, files, known[name], name, next, contents);
    }
    DispatcherIsNew(site, files + Scripts(dir, next, contents), known, !DispatcherIn(site, files), from);
    KnownAfterAppend(site, files, name, contents);
  }

  lemma {:induction false} RunKeepsNew(site: Site, init: seq<File>, calls: seq<Call>)
    requires CleanRoot(site.root) && Countable(Known(site, init), NamesOf(calls, Successful))
    requires AllNumbersFree(site, init, Known(site, init))
    ensures var files := AfterCalls(site, init, calls);
      AllNumbersFree(site, files, Known(site, files)) && NewPaths(files, |init|)
    decreases |calls|
  {
    if calls != [] {
      var before, call := calls[..|calls| - 1], calls[|calls| - 1];
      RunKeepsNew(site, init, before);
      CallValid(call);
      if Contents(call).Ok? {
        RunLearns(site, init, before);
        LearnAllGrows(Known(site, init), NamesOf(before, Successful));
        CallKeepsNew(site, AfterCalls(site, init, before), CallName(call), Contents(call).value, |init|);
      }
    }
  }

  /** The call that registers `e` so many times. */
  function Times(name: string, e: Executable, count: nat): Call
  {
    var es := seq(count, i => e);
    if name == DEFAULT_NAMESPACE then Default(es) else FromDir(name, es)
  }

  lemma TimesSucceeds(name: string, e: Executable, count: nat)
    requires NamespaceName(name) && Rendered(e).Ok? && count > 0
    ensures Contents(Times(name, e, count)).Ok? && |Contents(Times(name, e, count)).value| == count
    ensures CallName(Times(name, e, count)) == name
  {
    CollectKeepsAll(Renderings(Times(name, e, count).execs));
  }

  /** Enough commands for a name come to any number that is not below the number of its scripts. */
  lemma NumberIsReached(site: Site, init: seq<File>, name: string, slot: nat)
    requires CleanRoot(site.root) && Countable(Known(site, init), [DEFAULT_NAMESPACE])
    requires name in Known(site, init) && NamespaceName(name)
    requires var dir := SubDir(site, Known(site, init)[name], name);
      slot >= CmdCount(init, dir) && !Unused(init, ScriptPath(site, Known(site, init)[name], name, slot))
    ensures !AlwaysNewPaths(site, init)
  {
    var idx := Known(site, init)[name];
    var start := CmdCount(init, SubDir(site, idx, name));
    var e := SomeExecutable();
    var call := Times(name, e, slot - start + 1);
    TimesSucceeds(name, e, slot - start + 1);
    OneCall(site, init, call);
    NamespaceDirIs(site, Known(site, init), name);
    JoinPrinted(site, idx, name, slot);
    RepeatsPath(init, SubDir(site, idx, name), start, Contents(call).value,
                if DispatcherIn(site, init) then [] else [site.Dispatcher()]);
    OneRepeats(site, init, call);
  }

  lemma OneRepeats(site: Site, init: seq<File>, call: Call)
    requires Countable(Known(site, init), NamesOf([call], Successful))
    requires !NewPaths(AfterCalls(site, init, [call]), |init|)
    ensures !AlwaysNewPaths(site, init)
  {
  }

  lemma RepeatsPath(init: seq<File>, dir: string, start: nat, contents: seq<string>, more: seq<File>)
    requires contents != [] && !Unused(init, Join(dir, CmdName(start + |contents| - 1)))
    ensures !NewPaths(init + Scripts(dir, start, contents) + more, |init|)
  {
    var last := |contents| - 1;
    var f :| f in init && f.containerPath == Join(dir, CmdName(start + last));
    var i :| 0 <= i < |init| && init[i] == f;
    ScriptsSnoc(dir, start, contents);
    RepeatsAt(init, Scripts(dir, start, contents[..last]), ScriptAt(dir, start + last, contents[last]), more, i);
    assert init + (Scripts(dir, start, contents[..last]) + [ScriptAt(dir, start + last, contents[last])]) + more
        == init + Scripts(dir, start, contents) + more;
  }

  lemma RepeatsAt(init: seq<File>, some: seq<File>, f: File, more: seq<File>, i: nat)
    requires i < |init| && init[i].containerPath == f.containerPath
    ensures !NewPaths(init + (some + [f]) + more, |init|)
  {
    var files, j := init + (some + [f]) + more, |init| + |some|;
    assert files[i] == init[i] && files[j] == f;
  }

  /**
   * For all initial files: no run of the options gives out a path that a file has, exactly if in the
   * directory of every name known the numbers are free from the number of scripts counted there on.
   */
  lemma NewPathsExactly(site: Site, init: seq<File>)
    requires CleanRoot(site.root) && Countable(Known(site, init), [DEFAULT_NAMESPACE])
    ensures AlwaysNewPaths(site, init) <==> AllNumbersFree(site, init, Known(site, init))
  {
    var known := Known(site, init);
    if AllNumbersFree(site, init, known) {
      forall calls | Countable(known, NamesOf(calls, Successful))
        ensures NewPaths(AfterCalls(site, init, calls), |init|)
      {
        RunKeepsNew(site, init, calls);
      }
    } else {
      var name :| name in known && NamespaceName(name) && !NumbersFree(site, init, known[name], name);
      var slot: nat :| slot >= CmdCount(init, SubDir(site, known[name], name)) && !Unused(init, ScriptPath(site, known[name], name, slot));
      NumberIsReached(site, init, name, slot);
    }
  }
}
