/**
 * The dispatcher of container/durable_startup.go: two nested loops over sorted globs (IEEE Std
 * 1003.1-2017, XCU 2.13.3, with LC_ALL=C), which stop at the first script that fails.  The main
 * result, `DispatchOrderIsExact`, says when the scripts run in the order they were registered.
 */
module DurableDispatch {
  import opened GoStrings
  import opened Results
  import opened GoPath
  import opened Shell
  import opened DurableAllocator
  import opened DurableLayout

  // ---------- Byte order and sorted globs ----------

  predicate Less(a: string, b: string)
    decreases |b|
  {
    b != "" && (a == "" || a[0] < b[0] || (a[0] == b[0] && Less(a[1..], b[1..])))
  }

  lemma {:induction false} LessTotal(a: string, b: string)
    ensures a == b || Less(a, b) || Less(b, a)
    ensures !(Less(a, b) && Less(b, a)) && !Less(a, a)
    decreases |a|
  {
    if a != "" {
      LessTotal(a[1..], a[1..]);
      if b != "" {
        LessTotal(a[1..], b[1..]);
        assert a == [a[0]] + a[1..] && b == [b[0]] + b[1..];
      }
    }
  }

  lemma {:induction false} LessTransitive(a: string, b: string, c: string)
    requires Less(a, b) && Less(b, c)
    ensures Less(a, c)
    decreases |a|
  {
    if a != "" && a[0] == b[0] == c[0] {
      LessTransitive(a[1..], b[1..], c[1..]);
    }
  }

  predicate Sorted(xs: seq<string>)
  {
    forall i, j :: 0 <= i < j < |xs| ==> Less(xs[i], xs[j])
  }

  ghost predicate Lists(xs: seq<string>, s: set<string>)
  {
    forall x :: x in xs <==> x in s
  }

  ghost predicate Least(s: set<string>, m: string)
  {
    m in s && forall x :: x in s ==> x == m || Less(m, x)
  }

  lemma {:induction false} LeastExists(s: set<string>) returns (m: string)
    requires s != {}
    ensures Least(s, m)
    decreases |s|
  {
    m :| m in s;
    if s != {m} {
      var least := LeastExists(s - {m});
      LessTotal(m, least);
      if Less(least, m) {
        m := least;
      } else {
        forall x | x in s && x != m
          ensures Less(m, x)
        {
          if x != least {
            LessTransitive(m, least, x);
          }
        }
      }
    }
  }

  /** The matches of a glob, in byte order. */
  ghost function Glob(s: set<string>): (xs: seq<string>)
    ensures Lists(xs, s) && Sorted(xs)
    decreases |s|
  {
    if s == {} then []
    else
      assert exists m :: Least(s, m) by {
        var m := LeastExists(s);
      }
      var m :| Least(s, m);
      [m] + Glob(s - {m})
  }

  lemma SomeElement(ys: seq<string>)
    ensures ys != [] ==> exists y :: y in ys
  {
    if ys != [] {
      assert ys[0] in ys;
    }
  }

  lemma {:induction false} SortedUnique(xs: seq<string>, ys: seq<string>)
    requires Sorted(xs) && Sorted(ys) && forall x :: x in xs <==> x in ys
    ensures xs == ys
    decreases |xs|
  {
    if xs == [] {
      SomeElement(ys);
    } else {
      assert xs[0] in ys;
      var j :| 0 <= j < |ys| && ys[j] == xs[0];
      assert ys[0] in xs;
      var i :| 0 <= i < |xs| && xs[i] == ys[0];
      LessTotal(xs[0], ys[0]);
      assert xs[0] == ys[0];
      forall x
        ensures x in xs[1..] <==> x in ys[1..]
      {
        LessTotal(xs[0], xs[0]);
        assert x in xs[1..] ==> x in ys && x != xs[0];
        assert x in ys[1..] ==> x in xs && x != xs[0];
      }
      SortedUnique(xs[1..], ys[1..]);
    }
  }

  /** A list is what a glob yields exactly when it is sorted and lists the matches. */
  lemma GlobIs(s: set<string>, xs: seq<string>)
    requires Lists(xs, s)
    ensures Glob(s) == xs <==> Sorted(xs)
  {
    if Sorted(xs) {
      SortedUnique(Glob(s), xs);
    }
  }

  // ---------- What the dispatcher sees ----------

  /** The word `$ns` without its `$ROOT/`: a directory of the root, with a slash at its end. */
  function NsWord(site: Site, p: string): Option<string>
  {
    if !(site.Prefix() <= p) then None
    else
      var rel := p[|site.Prefix()|..];
      var slash := IndexOf(rel, '/');
      if slash <= 0 || rel[0] == '.' then None else Some(rel[..slash + 1])
  }

  /** The rest of a path that `"$ns"*-cmd.sh` matches. */
  function BaseWord(site: Site, ns: string, p: string): Option<string>
  {
    var dir := site.Prefix() + ns;
    if !(dir <= p) then None
    else
      var base := p[|dir|..];
      if '/' in base || !HasSuffix(base, "-cmd.sh") || base[0] == '.' then None else Some(base)
  }

  function NsWords(site: Site, files: seq<File>): set<string>
  {
    set f | f in files && NsWord(site, f.containerPath).Some? :: NsWord(site, f.containerPath).value
  }

  function BaseWords(site: Site, files: seq<File>, ns: string): set<string>
  {
    set f | f in files && BaseWord(site, ns, f.containerPath).Some? :: BaseWord(site, ns, f.containerPath).value
  }

  type Run = seq<(string, string)>

  function Pairs(ns: string, bases: seq<string>): Run
  {
    if bases == [] then [] else Pairs(ns, bases[..|bases| - 1]) + [(ns, bases[|bases| - 1])]
  }

  /** The inner loop inside the outer one. */
  function Flat(nss: seq<string>, bases: seq<seq<string>>): Run
    requires |nss| == |bases|
  {
    if nss == [] then []
    else
      var last := |nss| - 1;
      Flat(nss[..last], bases[..last]) + Pairs(nss[last], bases[last])
  }

  /** The scripts in the order the dispatcher comes to them. */
  ghost function DispatchOrder(site: Site, files: seq<File>): Run
  {
    var nss := Glob(NsWords(site, files));
    Flat(nss, seq(|nss|, i requires 0 <= i < |nss| => Glob(BaseWords(site, files, nss[i]))))
  }

  // ---------- The order that was asked for ----------

  /** The namespaces that hold anything: the default one first, then by first registration. */
  function RunNames(reg: Registry): seq<string>
  {
    (if Registered(reg, DEFAULT_NAMESPACE) then [DEFAULT_NAMESPACE] else []) + Names(reg)
  }

  function NsOf(reg: Registry, name: string): string
  {
    Sub(Index(reg, name), name) + "/"
  }

  function NssOf(reg: Registry): seq<string>
  {
    seq(|RunNames(reg)|, i requires 0 <= i < |RunNames(reg)| => NsOf(reg, RunNames(reg)[i]))
  }

  function CmdNames(n: nat): seq<string>
  {
    seq(n, i requires 0 <= i < n => CmdName(i))
  }

  function BasesOf(reg: Registry): seq<seq<string>>
  {
    seq(|RunNames(reg)|, i requires 0 <= i < |RunNames(reg)| => CmdNames(Slot(reg, RunNames(reg)[i])))
  }

  /** By namespace as above, and inside a namespace by registration across all calls. */
  function RegistrationOrder(reg: Registry): Run
  {
    Flat(NssOf(reg), BasesOf(reg))
  }

  // ---------- Projections of a run ----------

  /** The commands of one namespace, in the order of the run. */
  function Project(run: Run, ns: string): seq<string>
  {
    if run == [] then []
    else Project(run[..|run| - 1], ns) + if run[|run| - 1].0 == ns then [run[|run| - 1].1] else []
  }

  /** The namespaces in the order in which the run comes to them. */
  function Firsts(run: Run): seq<string>
  {
    if run == [] then []
    else
      var nss := Firsts(run[..|run| - 1]);
      if run[|run| - 1].0 in nss then nss else nss + [run[|run| - 1].0]
  }

  lemma {:induction false} ProjectAppend(a: Run, ns: string, bases: seq<string>, n: string)
    ensures Project(a + Pairs(ns, bases), n) == Project(a, n) + if ns == n then bases else []
    decreases |bases|
  {
    var run := a + Pairs(ns, bases);
    if bases == [] {
      assert run == a;
    } else {
      assert run[..|run| - 1] == a + Pairs(ns, bases[..|bases| - 1]);
      ProjectAppend(a, ns, bases[..|bases| - 1], n);
      assert bases[..|bases| - 1] + [bases[|bases| - 1]] == bases;
    }
  }

  lemma {:induction false} FirstsAppend(a: Run, ns: string, bases: seq<string>)
    requires bases != [] && ns !in Firsts(a)
    ensures Firsts(a + Pairs(ns, bases)) == Firsts(a) + [ns]
    decreases |bases|
  {
    var run := a + Pairs(ns, bases);
    assert run[..|run| - 1] == a + Pairs(ns, bases[..|bases| - 1]);
    if |bases| > 1 {
      FirstsAppend(a, ns, bases[..|bases| - 1]);
    } else {
      assert a + Pairs(ns, bases[..0]) == a;
    }
  }

  predicate Distinct(xs: seq<string>)
  {
    forall i, j :: 0 <= i < j < |xs| ==> xs[i] != xs[j]
  }

  /** A nested run can be taken apart again. */
  lemma {:induction false} FlatProjections(nss: seq<string>, bases: seq<seq<string>>, k: nat)
    requires |nss| == |bases| && Distinct(nss) && k < |nss|
    ensures Project(Flat(nss, bases), nss[k]) == bases[k]
    decreases |nss|
  {
    var last := |nss| - 1;
    var a := Flat(nss[..last], bases[..last]);
    ProjectAppend(a, nss[last], bases[last], nss[k]);
    if k < last {
      FlatProjections(nss[..last], bases[..last], k);
    } else {
      ProjectAbsent(nss[..last], bases[..last], nss[last]);
    }
  }

  lemma {:induction false} ProjectAbsent(nss: seq<string>, bases: seq<seq<string>>, ns: string)
    requires |nss| == |bases| && ns !in nss
    ensures Project(Flat(nss, bases), ns) == []
    decreases |nss|
  {
    if nss != [] {
      var last := |nss| - 1;
      ProjectAbsent(nss[..last], bases[..last], ns);
      ProjectAppend(Flat(nss[..last], bases[..last]), nss[last], bases[last], ns);
    }
  }

  lemma {:induction false} FlatFirsts(nss: seq<string>, bases: seq<seq<string>>)
    requires |nss| == |bases| && Distinct(nss)
    requires forall b :: b in bases ==> b != []
    ensures Firsts(Flat(nss, bases)) == nss
    decreases |nss|
  {
    if nss != [] {
      var last := |nss| - 1;
      assert bases[last] in bases;
      assert forall b :: b in bases[..last] ==> b in bases;
      FlatFirsts(nss[..last], bases[..last]);
      FirstsAppend(Flat(nss[..last], bases[..last]), nss[last], bases[last]);
    }
  }

  // ---------- Numbers and byte order ----------

  lemma DecimalSmall(n: nat)
    requires n < 1000
    ensures Pad3(n) == [DigitChar(n / 100), DigitChar(n / 10 % 10), DigitChar(n % 10)]
  {
    if n >= 100 {
      assert n / 10 / 10 == n / 100 < 10;
      assert Decimal(n / 10) == Decimal(n / 100) + [DigitChar(n / 10 % 10)];
      assert Decimal(n / 100) == [DigitChar(n / 100)];
    } else if n >= 10 {
      assert Decimal(n / 10) == [DigitChar(n / 10)];
    }
  }

  lemma LessByThird(a: string, b: string)
    requires |a| >= 3 && |b| >= 3
    requires a[0] < b[0] || (a[0] == b[0] && (a[1] < b[1] || (a[1] == b[1] && a[2] < b[2])))
    ensures Less(a, b)
  {
    assert a[1..][0] == a[1] && b[1..][0] == b[1];
    assert a[1..][1..][0] == a[2] && b[1..][1..][0] == b[2];
    assert a[0] == b[0] && a[1] == b[1] ==> Less(a[1..][1..], b[1..][1..]);
    assert a[0] == b[0] ==> Less(a[1..], b[1..]);
  }

  lemma DigitsOrder(i: nat, j: nat)
    requires i < j
    ensures i / 100 < j / 100 || (i / 100 == j / 100 &&
      (i / 10 % 10 < j / 10 % 10 || (i / 10 % 10 == j / 10 % 10 && i % 10 < j % 10)))
  {
    assert i == 10 * (i / 10) + i % 10 && j == 10 * (j / 10) + j % 10;
    assert i / 10 == 10 * (i / 100) + i / 10 % 10 && j / 10 == 10 * (j / 100) + j / 10 % 10;
  }

  /** Up to 999 the printed numbers sort as numbers, whatever follows them. */
  lemma Pad3Sorted(i: nat, j: nat, x: string, y: string)
    requires i < j <= 999
    ensures Less(Pad3(i) + x, Pad3(j) + y)
  {
    DigitsOrder(i, j);
    DecimalSmall(i);
    DecimalSmall(j);
    LessByThird(Pad3(i) + x, Pad3(j) + y);
  }

  /** From 1000 on they do not. */
  lemma Pad3Unsorted(x: string, y: string)
    ensures !Less(Pad3(999) + x, Pad3(1000) + y)
  {
    DecimalSmall(999);
    assert Decimal(1) == "1";
    assert Decimal(10) == "10";
    assert Decimal(100) == "100";
    assert Decimal(1000) == "1000";
    assert (Pad3(999) + x)[0] == '9' && (Pad3(1000) + y)[0] == '1';
  }

  lemma CmdNamesSorted(n: nat)
    ensures Sorted(CmdNames(n)) <==> n <= 1000
  {
    if n <= 1000 {
      forall i, j | 0 <= i < j < n
        ensures Less(CmdName(i), CmdName(j))
      {
        Pad3Sorted(i, j, "-cmd.sh", "-cmd.sh");
      }
    } else {
      Pad3Unsorted("-cmd.sh", "-cmd.sh");
      assert !Less(CmdNames(n)[999], CmdNames(n)[1000]);
    }
  }

  // ---------- What the globs match in a layout ----------

  lemma NsWordOf(site: Site, p: string, sub: string, cmd: string)
    requires p == site.Prefix() + (sub + ['/'] + cmd) && sub != "" && sub[0] != '.' && '/' !in sub
    ensures NsWord(site, p) == Some(sub + "/")
  {
    var rel := sub + ['/'] + cmd;
    TakenApart(site.Prefix(), rel);
    IndexOfJoined(sub, '/', cmd);
    TakenApart(sub + ['/'], cmd);
    assert rel[0] == sub[0];
  }

  lemma BaseWordOf(site: Site, ns: string, p: string, cmd: string)
    requires p == (site.Prefix() + ns) + cmd && cmd != "" && cmd[0] != '.' && '/' !in cmd && HasSuffix(cmd, "-cmd.sh")
    ensures BaseWord(site, ns, p) == Some(cmd)
  {
    var dir := site.Prefix() + ns;
    TakenApart(dir, cmd);
    assert dir <= p && p[|dir|..] == cmd;
  }

  lemma PrintedPieces(idx: nat, name: string, slot: nat)
    requires NamespaceName(name)
    ensures var sub, cmd := Sub(idx, name), CmdName(slot);
      && sub != "" && sub[0] != '.' && '/' !in sub
      && cmd != "" && cmd[0] != '.' && '/' !in cmd && HasSuffix(cmd, "-cmd.sh")
  {
    SimplePieces(idx, name);
    SimplePieces(slot, name);
    assert Digit(Sub(idx, name)[0]) && Digit(CmdName(slot)[0]);
    SuffixOf(Pad3(slot), "-cmd.sh");
  }

  lemma ThreeParts(a: string, b: string, c: string)
    ensures a + (b + ['/'] + c) == (a + (b + "/")) + c
  {
  }

  lemma WordsPrinted(site: Site, idx: nat, name: string, slot: nat)
    requires NamespaceName(name)
    ensures NsWord(site, ScriptPath(site, idx, name, slot)) == Some(Sub(idx, name) + "/")
    ensures BaseWord(site, Sub(idx, name) + "/", ScriptPath(site, idx, name, slot)) == Some(CmdName(slot))
  {
    PrintedPieces(idx, name, slot);
    RelOfScript(site, idx, name, slot);
    ThreeParts(site.Prefix(), Sub(idx, name), CmdName(slot));
    NsWordOf(site, ScriptPath(site, idx, name, slot), Sub(idx, name), CmdName(slot));
    BaseWordOf(site, Sub(idx, name) + "/", ScriptPath(site, idx, name, slot), CmdName(slot));
  }

  lemma FirstPiece(a: string, b: string, c: string, d: string)
    requires '/' !in a && '/' !in c && a + ['/'] + b == c + ['/'] + d
    ensures a == c
  {
    IndexOfJoined(a, '/', b);
    IndexOfJoined(c, '/', d);
    assert (a + ['/'] + b)[..|a|] == a && (c + ['/'] + d)[..|c|] == c;
  }

  /** A script is matched in its own namespace directory only. */
  lemma BaseOnlyInOwn(site: Site, idx: nat, name: string, slot: nat, i: nat, n: string)
    requires NamespaceName(name) && NamespaceName(n)
    requires BaseWord(site, Sub(i, n) + "/", ScriptPath(site, idx, name, slot)).Some?
    ensures i == idx && n == name
  {
    SimplePieces(idx, name);
    SimplePieces(i, n);
    OwnDir(site.Prefix(), Sub(idx, name), CmdName(slot), Sub(i, n));
    SubInjective(i, n, idx, name);
  }

  lemma OwnDir(prefix: string, a: string, b: string, c: string)
    requires '/' !in a && '/' !in c
    requires prefix + (c + "/") <= prefix + a + "/" + b
    ensures a == c
  {
    var p, dir := prefix + a + "/" + b, prefix + (c + "/");
    var d := p[|dir|..];
    assert p == dir + d;
    assert p[|prefix|..] == a + ['/'] + b;
    assert p[|prefix|..] == c + ['/'] + d;
    FirstPiece(a, b, c, d);
  }

  lemma DispatcherUnmatched(site: Site, sub: string)
    ensures NsWord(site, site.DispatcherPath()) == None
    ensures BaseWord(site, sub + "/", site.DispatcherPath()) == None
  {
    var p, n := site.DispatcherPath(), |site.Prefix()|;
    var dir := site.Prefix() + (sub + "/");
    assert p[n..] == DISPATCHER_NAME && '/' !in DISPATCHER_NAME;
    forall i | n <= i < |p|
      ensures p[i] != '/'
    {
      assert p[i] == DISPATCHER_NAME[i - n];
    }
    assert dir[|dir| - 1] == '/';
  }

  function Matches(w: Option<string>): set<string>
  {
    if w.Some? then {w.value} else {}
  }

  lemma NsWordsSnoc(site: Site, files: seq<File>, f: File)
    ensures NsWords(site, files + [f]) == NsWords(site, files) + Matches(NsWord(site, f.containerPath))
  {
    InSnoc(files, f);
  }

  lemma BaseWordsSnoc(site: Site, files: seq<File>, f: File, ns: string)
    ensures BaseWords(site, files + [f], ns)
         == BaseWords(site, files, ns) + Matches(BaseWord(site, ns, f.containerPath))
  {
    InSnoc(files, f);
  }

  lemma InSnoc(files: seq<File>, f: File)
    ensures forall g :: g in files + [f] <==> g in files || g == f
  {
  }

  lemma SlashBehind(prefix: string, sub: string, p: string)
    requires prefix + (sub + "/") <= p
    ensures '/' in p[|prefix|..]
  {
    assert p[|prefix|..][|sub|] == p[|prefix| + |sub|] == (prefix + (sub + "/"))[|prefix| + |sub|] == '/';
  }

  lemma WordsOutside(site: Site, files: seq<File>, sub: string)
    requires AllOutside(site, files)
    ensures NsWords(site, files) == {} && BaseWords(site, files, sub + "/") == {}
  {
    var ns := sub + "/";
    forall f | f in files
      ensures NsWord(site, f.containerPath) == None && BaseWord(site, ns, f.containerPath) == None
    {
      assert Outside(site, f);
      if site.Prefix() + ns <= f.containerPath {
        SlashBehind(site.Prefix(), sub, f.containerPath);
      }
    }
  }

  lemma WordsWithDispatcher(site: Site, files: seq<File>, last: bool, sub: string)
    ensures var files' := files + if last then [site.Dispatcher()] else [];
      NsWords(site, files') == NsWords(site, files) &&
      BaseWords(site, files', sub + "/") == BaseWords(site, files, sub + "/")
  {
    NsWordsSnoc(site, files, site.Dispatcher());
    BaseWordsSnoc(site, files, site.Dispatcher(), sub + "/");
    DispatcherUnmatched(site, sub);
    assert files + [] == files;
  }

  /** The directories that hold a script. */
  function NsSet(reg: Registry): set<string>
  {
    if reg == [] then {}
    else
      var before, r := reg[..|reg| - 1], reg[|reg| - 1];
      NsSet(before) + {NsOf(before, r.name)}
  }

  function CmdSet(n: nat): set<string>
  {
    if n == 0 then {} else CmdSet(n - 1) + {CmdName(n - 1)}
  }

  lemma NsWordsScript(site: Site, files: seq<File>, reg: Registry, r: Registration, last: bool)
    requires NamespaceName(r.name)
    ensures var files' := files + [ScriptFile(site, reg, r)] + if last then [site.Dispatcher()] else [];
      NsWords(site, files') == NsWords(site, files) + {NsOf(reg, r.name)}
  {
    var f := ScriptFile(site, reg, r);
    NsWordsSnoc(site, files, f);
    WordsPrinted(site, Index(reg, r.name), r.name, Slot(reg, r.name));
    WordsWithDispatcher(site, files + [f], last, "");
  }

  /** The directory glob matches the directories of the registered namespaces. */
  lemma {:induction false} NsWordsLayout(site: Site, init: seq<File>, reg: Registry, first: nat)
    requires AllOutside(site, init) && ValidNames(reg)
    ensures NsWords(site, Layout(site, init, reg, first)) == NsSet(reg)
    decreases |reg|
  {
    if reg == [] {
      WordsOutside(site, init, "");
    } else {
      var before, r := reg[..|reg| - 1], reg[|reg| - 1];
      assert r in reg;
      NsWordsLayout(site, init, before, first);
      NsWordsScript(site, Layout(site, init, before, first), before, r, |reg| == first);
    }
  }

  lemma BaseWordsScript(site: Site, files: seq<File>, reg: Registry, r: Registration, last: bool, idx: nat, name: string)
    requires NamespaceName(r.name) && NamespaceName(name)
    requires r.name == name ==> idx == Index(reg, name)
    ensures var files' := files + [ScriptFile(site, reg, r)] + if last then [site.Dispatcher()] else [];
      BaseWords(site, files', Sub(idx, name) + "/")
      == BaseWords(site, files, Sub(idx, name) + "/") + if r.name == name then {CmdName(Slot(reg, name))} else {}
  {
    var f, ns := ScriptFile(site, reg, r), Sub(idx, name) + "/";
    BaseWordsSnoc(site, files, f, ns);
    WordsWithDispatcher(site, files + [f], last, Sub(idx, name));
    if r.name == name {
      WordsPrinted(site, idx, name, Slot(reg, name));
    } else if BaseWord(site, ns, f.containerPath).Some? {
      BaseOnlyInOwn(site, Index(reg, r.name), r.name, Slot(reg, r.name), idx, name);
    }
  }

  /** The file glob matches the numbers 0, 1, ... that the namespace has given out. */
  lemma {:induction false} BaseWordsLayout(site: Site, init: seq<File>, reg: Registry, first: nat, idx: nat, name: string)
    requires AllOutside(site, init) && ValidNames(reg) && NamespaceName(name)
    requires Registered(reg, name) ==> idx == Index(reg, name)
    ensures BaseWords(site, Layout(site, init, reg, first), Sub(idx, name) + "/") == CmdSet(Slot(reg, name))
    decreases |reg|
  {
    if reg == [] {
      WordsOutside(site, init, Sub(idx, name));
    } else {
      var before, r := reg[..|reg| - 1], reg[|reg| - 1];
      assert r in reg && before + [r] == reg;
      if Registered(before, name) || r.name == name {
        IndexStable(before, r, name);
      }
      BaseWordsLayout(site, init, before, first, idx, name);
      BaseWordsScript(site, Layout(site, init, before, first), before, r, |reg| == first, idx, name);
    }
  }

  lemma CmdNamesSnoc(n: nat)
    requires n > 0
    ensures CmdNames(n) == CmdNames(n - 1) + [CmdName(n - 1)]
  {
  }

  lemma ListsSnoc(xs: seq<string>, s: set<string>, x: string)
    requires Lists(xs, s)
    ensures Lists(xs + [x], s + {x})
  {
  }

  lemma {:induction false} CmdNamesList(n: nat)
    ensures Lists(CmdNames(n), CmdSet(n))
    decreases n
  {
    if n > 0 {
      CmdNamesList(n - 1);
      CmdNamesSnoc(n);
      ListsSnoc(CmdNames(n - 1), CmdSet(n - 1), CmdName(n - 1));
    }
  }

  lemma {:induction false} NsSetHas(reg: Registry, name: string)
    requires Registered(reg, name)
    ensures NsOf(reg, name) in NsSet(reg)
    decreases |reg|
  {
    var before, r := reg[..|reg| - 1], reg[|reg| - 1];
    assert before + [r] == reg;
    IndexStable(before, r, name);
    if r.name != name {
      NsSetHas(before, name);
    }
  }

  lemma {:induction false} NsSetWitness(reg: Registry, w: string) returns (name: string)
    requires w in NsSet(reg)
    ensures Registered(reg, name) && w == NsOf(reg, name)
    decreases |reg|
  {
    var before, r := reg[..|reg| - 1], reg[|reg| - 1];
    assert before + [r] == reg;
    if w in NsSet(before) {
      name := NsSetWitness(before, w);
    } else {
      name := r.name;
    }
    IndexStable(before, r, name);
  }

  lemma InRunNames(reg: Registry, name: string)
    ensures name in RunNames(reg) <==> Registered(reg, name)
  {
    NamesAreRegistered(reg, name);
  }

  lemma NssList(reg: Registry)
    ensures Lists(NssOf(reg), NsSet(reg))
  {
    forall w
      ensures w in NssOf(reg) <==> w in NsSet(reg)
    {
      if w in NsSet(reg) {
        var name := NsSetWitness(reg, w);
        InRunNames(reg, name);
        var i :| 0 <= i < |RunNames(reg)| && RunNames(reg)[i] == name;
        assert NssOf(reg)[i] == w;
      }
      if w in NssOf(reg) {
        var i :| 0 <= i < |RunNames(reg)| && NssOf(reg)[i] == w;
        InRunNames(reg, RunNames(reg)[i]);
        NsSetHas(reg, RunNames(reg)[i]);
      }
    }
  }

  /** The i-th namespace of the run has index i, or i + 1 when the default one is not used. */
  lemma RunNameIndex(reg: Registry, i: nat)
    requires i < |RunNames(reg)|
    ensures Index(reg, RunNames(reg)[i]) == if Registered(reg, DEFAULT_NAMESPACE) then i else i + 1
  {
    NamesDistinct(reg);
    if RunNames(reg)[i] != DEFAULT_NAMESPACE {
      var k := if Registered(reg, DEFAULT_NAMESPACE) then i - 1 else i;
      assert RunNames(reg)[i] == Names(reg)[k];
      var p := Position(Names(reg), Names(reg)[k]);
      assert Names(reg)[p] == Names(reg)[k];
    }
  }

  lemma NssText(reg: Registry, i: nat) returns (rest: string)
    requires i < |RunNames(reg)|
    ensures NssOf(reg)[i] == Pad3(if Registered(reg, DEFAULT_NAMESPACE) then i else i + 1) + rest
  {
    RunNameIndex(reg, i);
    rest := "-" + RunNames(reg)[i] + "/";
    assert NssOf(reg)[i] == Pad3(Index(reg, RunNames(reg)[i])) + rest;
  }

  lemma NssSorted(reg: Registry)
    ensures Sorted(NssOf(reg)) <==> |Names(reg)| <= 999
  {
    var nss := NssOf(reg);
    if |Names(reg)| <= 999 {
      forall i, j | 0 <= i < j < |nss|
        ensures Less(nss[i], nss[j])
      {
        var x := NssText(reg, i);
        var y := NssText(reg, j);
        Pad3Sorted(if Registered(reg, DEFAULT_NAMESPACE) then i else i + 1,
                   if Registered(reg, DEFAULT_NAMESPACE) then j else j + 1, x, y);
      }
    } else {
      var i := if Registered(reg, DEFAULT_NAMESPACE) then 999 else 998;
      var x := NssText(reg, i);
      var y := NssText(reg, i + 1);
      Pad3Unsorted(x, y);
      assert !Less(nss[i], nss[i + 1]);
    }
  }

  lemma SortedDistinct(xs: seq<string>)
    requires Sorted(xs)
    ensures Distinct(xs)
  {
    forall i, j | 0 <= i < j < |xs|
      ensures xs[i] != xs[j]
    {
      LessTotal(xs[i], xs[i]);
    }
  }

  lemma NssDistinct(reg: Registry)
    ensures Distinct(NssOf(reg))
  {
    var names, nss := RunNames(reg), NssOf(reg);
    forall i, j | 0 <= i < j < |nss|
      ensures nss[i] != nss[j]
    {
      RunNameIndex(reg, i);
      RunNameIndex(reg, j);
      var ii, jj := Index(reg, names[i]), Index(reg, names[j]);
      if nss[i] == nss[j] {
        assert nss[i][..|nss[i]| - 1] == Sub(ii, names[i]);
        assert nss[j][..|nss[j]| - 1] == Sub(jj, names[j]);
        SubInjective(ii, names[i], jj, names[j]);
      }
    }
  }

  // ---------- The main result ----------

  /** Every index and every command number prints with three digits. */
  ghost predicate Within999(reg: Registry)
  {
    |Names(reg)| <= 999 && forall name :: Slot(reg, name) <= 1000
  }

  lemma DispatchedBases(site: Site, init: seq<File>, reg: Registry, first: nat, name: string)
    requires AllOutside(site, init) && ValidNames(reg) && Registered(reg, name)
    ensures var bases := Glob(BaseWords(site, Layout(site, init, reg, first), NsOf(reg, name)));
      bases != [] && (bases == CmdNames(Slot(reg, name)) <==> Slot(reg, name) <= 1000)
  {
    RegisteredValid(reg, name);
    BaseWordsLayout(site, init, reg, first, Index(reg, name), name);
    CmdNamesList(Slot(reg, name));
    CmdNamesSorted(Slot(reg, name));
    GlobIs(CmdSet(Slot(reg, name)), CmdNames(Slot(reg, name)));
    assert CmdNames(Slot(reg, name))[0] in CmdSet(Slot(reg, name));
  }

  lemma {:induction false} RegisteredValid(reg: Registry, name: string)
    requires Registered(reg, name) && ValidNames(reg)
    ensures NamespaceName(name)
    decreases |reg|
  {
    assert reg[|reg| - 1] in reg;
    if reg[|reg| - 1].name != name {
      RegisteredValid(reg[..|reg| - 1], name);
    }
  }

  /**
   * The dispatcher runs the scripts in the order they were registered - default namespace first,
   * then namespaces by first registration, then commands by registration across all calls -
   * exactly when no namespace index is above 999 and no namespace has more than 1000 commands.
   */
  lemma DispatchOrderIsExact(site: Site, init: seq<File>, reg: Registry, first: nat)
    requires AllOutside(site, init) && ValidNames(reg)
    ensures DispatchOrder(site, Layout(site, init, reg, first)) == RegistrationOrder(reg) <==> Within999(reg)
  {
    var files := Layout(site, init, reg, first);
    NsWordsLayout(site, init, reg, first);
    var nss := Glob(NsSet(reg));
    var bases := seq(|nss|, i requires 0 <= i < |nss| => Glob(BaseWords(site, files, nss[i])));
    if Within999(reg) {
      InOrder(site, init, reg, first, nss, bases);
    }
    if DispatchOrder(site, files) == RegistrationOrder(reg) {
      SameOrderSameLists(site, init, reg, first, nss, bases);
    }
  }

  lemma InOrder(site: Site, init: seq<File>, reg: Registry, first: nat, nss: seq<string>, bases: seq<seq<string>>)
    requires AllOutside(site, init) && ValidNames(reg) && Within999(reg)
    requires nss == Glob(NsSet(reg)) && |bases| == |nss|
    requires forall i :: 0 <= i < |nss| ==> bases[i] == Glob(BaseWords(site, Layout(site, init, reg, first), nss[i]))
    ensures nss == NssOf(reg) && bases == BasesOf(reg)
  {
    NssList(reg);
    NssSorted(reg);
    GlobIs(NsSet(reg), NssOf(reg));
    forall i | 0 <= i < |nss|
      ensures bases[i] == BasesOf(reg)[i]
    {
      InRunNames(reg, RunNames(reg)[i]);
      DispatchedBases(site, init, reg, first, RunNames(reg)[i]);
    }
  }

  /** Equal nested runs come from equal lists. */
  lemma FlatInjective(nss: seq<string>, bases: seq<seq<string>>, nss': seq<string>, bases': seq<seq<string>>)
    requires |nss| == |bases| && |nss'| == |bases'| && Distinct(nss) && Distinct(nss')
    requires (forall b :: b in bases ==> b != []) && (forall b :: b in bases' ==> b != [])
    requires Flat(nss, bases) == Flat(nss', bases')
    ensures nss == nss' && bases == bases'
  {
    FlatFirsts(nss, bases);
    FlatFirsts(nss', bases');
    forall k | 0 <= k < |nss|
      ensures bases[k] == bases'[k]
    {
      FlatProjections(nss, bases, k);
      FlatProjections(nss', bases', k);
    }
  }

  lemma SameOrderSameLists(site: Site, init: seq<File>, reg: Registry, first: nat, nss: seq<string>, bases: seq<seq<string>>)
    requires AllOutside(site, init) && ValidNames(reg)
    requires nss == Glob(NsSet(reg)) && |bases| == |nss|
    requires forall i :: 0 <= i < |nss| ==> bases[i] == Glob(BaseWords(site, Layout(site, init, reg, first), nss[i]))
    requires Flat(nss, bases) == RegistrationOrder(reg)
    ensures Within999(reg)
  {
    SortedDistinct(nss);
    NssDistinct(reg);
    forall i | 0 <= i < |nss|
      ensures bases[i] != []
    {
      assert nss[i] in NsSet(reg);
      var name := NsSetWitness(reg, nss[i]);
      DispatchedBases(site, init, reg, first, name);
    }
    RegisteredBases(reg);
    FlatInjective(nss, bases, NssOf(reg), BasesOf(reg));
    NssSorted(reg);
    SortedBasesWithin(site, init, reg, first, nss, bases);
  }

  /** The lists of scripts are sorted, so each namespace has a thousand at most. */
  lemma SortedBasesWithin(site: Site, init: seq<File>, reg: Registry, first: nat, nss: seq<string>, bases: seq<seq<string>>)
    requires AllOutside(site, init) && ValidNames(reg)
    requires nss == NssOf(reg) && bases == BasesOf(reg)
    requires forall i :: 0 <= i < |nss| ==> bases[i] == Glob(BaseWords(site, Layout(site, init, reg, first), nss[i]))
    ensures forall name :: Slot(reg, name) <= 1000
  {
    forall name
      ensures Slot(reg, name) <= 1000
    {
      if Registered(reg, name) {
        InRunNames(reg, name);
        var k :| 0 <= k < |RunNames(reg)| && RunNames(reg)[k] == name;
        assert nss[k] == NsOf(reg, name) && bases[k] == CmdNames(Slot(reg, name));
        DispatchedBases(site, init, reg, first, name);
      }
    }
  }

  lemma RegisteredBases(reg: Registry)
    ensures forall b :: b in BasesOf(reg) ==> b != []
  {
    forall i | 0 <= i < |RunNames(reg)|
      ensures BasesOf(reg)[i] != []
    {
      InRunNames(reg, RunNames(reg)[i]);
    }
  }

  // ---------- Which contents run ----------

  /** The contents registered under a name, in order. */
  function ContentsOf(reg: Registry, name: string): seq<string>
  {
    if reg == [] then []
    else ContentsOf(reg[..|reg| - 1], name) + if reg[|reg| - 1].name == name then [reg[|reg| - 1].content] else []
  }

  /** The file at a path once all files are copied: the last copy counts. */
  function FileAt(files: seq<File>, p: string): Option<File>
  {
    if files == [] then None
    else if files[|files| - 1].containerPath == p then Some(files[|files| - 1])
    else FileAt(files[..|files| - 1], p)
  }

  /** The command with number `slot` of a namespace is the one registered as the slot-th under it. */
  lemma {:induction false} ScriptHoldsContent(site: Site, init: seq<File>, reg: Registry, first: nat, name: string, slot: nat)
    requires AllOutside(site, init) && ValidNames(reg) && slot < Slot(reg, name)
    ensures |ContentsOf(reg, name)| == Slot(reg, name)
    ensures var p := ScriptPath(site, Index(reg, name), name, slot);
      FileAt(Layout(site, init, reg, first), p) == Some(File(ContentsOf(reg, name)[slot], p, FILE_MODE))
    decreases |reg|
  {
    var before, r := reg[..|reg| - 1], reg[|reg| - 1];
    var p := ScriptPath(site, Index(reg, name), name, slot);
    assert r in reg && before + [r] == reg;
    ContentsCount(before, name);
    RegisteredValid(reg, name);
    IndexStable(before, r, name);
    ContentLast(site, Layout(site, init, before, first), before, r, |reg| == first, name, slot);
    if slot < Slot(before, name) {
      ScriptHoldsContent(site, init, before, first, name, slot);
    }
  }

  lemma {:induction false} ContentsCount(reg: Registry, name: string)
    ensures |ContentsOf(reg, name)| == Slot(reg, name)
    decreases |reg|
  {
    if reg != [] {
      ContentsCount(reg[..|reg| - 1], name);
    }
  }

  lemma ContentLast(site: Site, files: seq<File>, reg: Registry, r: Registration, last: bool, name: string, slot: nat)
    requires NamespaceName(r.name) && NamespaceName(name)
    ensures var files' := files + [ScriptFile(site, reg, r)] + if last then [site.Dispatcher()] else [];
      FileAt(files', ScriptPath(site, Index(reg, name), name, slot))
      == if r.name == name && slot == Slot(reg, name) then Some(ScriptFile(site, reg, r))
         else FileAt(files, ScriptPath(site, Index(reg, name), name, slot))
  {
    var f, p := ScriptFile(site, reg, r), ScriptPath(site, Index(reg, name), name, slot);
    assert (files + [f])[..|files|] == files;
    assert (files + [f] + [site.Dispatcher()])[..|files| + 1] == files + [f];
    assert files + [f] + [] == files + [f];
    ParsePrinted(site, Index(reg, name), name, slot);
    if f.containerPath == p {
      ScriptPathInjective(site, Index(reg, r.name), r.name, Slot(reg, r.name), Index(reg, name), name, slot);
    }
  }

  /** Once the first call is complete its dispatcher is at its path. */
  lemma {:induction false} DispatcherIsThere(site: Site, init: seq<File>, reg: Registry, first: nat)
    requires ValidNames(reg) && 0 < first <= |reg|
    ensures FileAt(Layout(site, init, reg, first), site.DispatcherPath()) == Some(site.Dispatcher())
    decreases |reg|
  {
    var before, r := reg[..|reg| - 1], reg[|reg| - 1];
    var files, f := Layout(site, init, before, first), ScriptFile(site, before, r);
    ValidInit(reg);
    FileAtSnoc(files + [f], site.Dispatcher(), site.DispatcherPath());
    if |reg| > first {
      ParsePrinted(site, Index(before, r.name), r.name, Slot(before, r.name));
      DispatcherIsThere(site, init, before, first);
      FileAtSnoc(files, f, site.DispatcherPath());
      assert files + [f] + [] == files + [f];
    }
  }

  lemma FileAtSnoc(files: seq<File>, f: File, p: string)
    ensures FileAt(files + [f], p) == if f.containerPath == p then Some(f) else FileAt(files, p)
  {
    assert (files + [f])[..|files|] == files;
  }

  // ---------- Distinct paths ----------

  ghost predicate Unused(files: seq<File>, p: string)
  {
    forall f :: f in files ==> f.containerPath != p
  }

  lemma UnusedOutside(site: Site, files: seq<File>, idx: nat, name: string, slot: nat)
    requires AllOutside(site, files) && NamespaceName(name)
    ensures Unused(files, ScriptPath(site, idx, name, slot))
  {
    RelOfScript(site, idx, name, slot);
    forall f | f in files
      ensures f.containerPath != ScriptPath(site, idx, name, slot)
    {
      assert Outside(site, f);
    }
  }

  lemma UnusedSnoc(files: seq<File>, f: File, more: seq<File>, p: string)
    requires Unused(files, p) && f.containerPath != p && Unused(more, p)
    ensures Unused(files + [f] + more, p)
  {
  }

  lemma OtherPath(site: Site, reg: Registry, r: Registration, idx: nat, name: string, slot: nat)
    requires NamespaceName(r.name) && NamespaceName(name) && !(r.name == name && slot == Slot(reg, name))
    ensures ScriptFile(site, reg, r).containerPath != ScriptPath(site, idx, name, slot)
    ensures site.DispatcherPath() != ScriptPath(site, idx, name, slot)
  {
    ParsePrinted(site, idx, name, slot);
    if ScriptFile(site, reg, r).containerPath == ScriptPath(site, idx, name, slot) {
      ScriptPathInjective(site, Index(reg, r.name), r.name, Slot(reg, r.name), idx, name, slot);
    }
  }

  /** A number a namespace has not given out yet is not taken in any of its directories. */
  lemma {:induction false} PathIsFree(site: Site, init: seq<File>, reg: Registry, first: nat, idx: nat, name: string, slot: nat)
    requires AllOutside(site, init) && ValidNames(reg) && NamespaceName(name) && slot >= Slot(reg, name)
    ensures Unused(Layout(site, init, reg, first), ScriptPath(site, idx, name, slot))
    decreases |reg|
  {
    if reg == [] {
      UnusedOutside(site, init, idx, name, slot);
    } else {
      var before, r := reg[..|reg| - 1], reg[|reg| - 1];
      ValidInit(reg);
      PathIsFree(site, init, before, first, idx, name, slot);
      OtherPath(site, before, r, idx, name, slot);
      UnusedSnoc(Layout(site, init, before, first), ScriptFile(site, before, r),
                 if |reg| == first then [site.Dispatcher()] else [], ScriptPath(site, idx, name, slot));
    }
  }

  /** As long as the first call has not come to its end there is no dispatcher. */
  lemma {:induction false} NoDispatcherYet(site: Site, init: seq<File>, reg: Registry, first: nat)
    requires AllOutside(site, init) && ValidNames(reg) && first > |reg|
    ensures Unused(Layout(site, init, reg, first), site.DispatcherPath())
    decreases |reg|
  {
    if reg == [] {
      forall f | f in init
        ensures f.containerPath != site.DispatcherPath()
      {
        assert Outside(site, f);
      }
    } else {
      var before, r := reg[..|reg| - 1], reg[|reg| - 1];
      ValidInit(reg);
      NoDispatcherYet(site, init, before, first);
      ParsePrinted(site, Index(before, r.name), r.name, Slot(before, r.name));
      UnusedSnoc(Layout(site, init, before, first), ScriptFile(site, before, r), [], site.DispatcherPath());
    }
  }

  /** From position `from` on every path is one that no file before has. */
  ghost predicate NewPaths(files: seq<File>, from: nat)
  {
    forall i, j :: 0 <= i < j < |files| && from <= j ==> files[i].containerPath != files[j].containerPath
  }

  lemma NewPathsSnoc(files: seq<File>, f: File, from: nat)
    requires NewPaths(files, from) && Unused(files, f.containerPath)
    ensures NewPaths(files + [f], from)
  {
  }

  /** In a layout the scripts and the dispatcher have paths of their own. */
  lemma {:induction false} LayoutPathsDistinct(site: Site, init: seq<File>, reg: Registry, first: nat)
    requires AllOutside(site, init) && ValidNames(reg)
    ensures init <= Layout(site, init, reg, first) && NewPaths(Layout(site, init, reg, first), |init|)
    decreases |reg|
  {
    if reg != [] {
      var before, r := reg[..|reg| - 1], reg[|reg| - 1];
      var files, f := Layout(site, init, before, first), ScriptFile(site, before, r);
      ValidInit(reg);
      LayoutPathsDistinct(site, init, before, first);
      PathIsFree(site, init, before, first, Index(before, r.name), r.name, Slot(before, r.name));
      NewPathsSnoc(files, f, |init|);
      if |reg| == first {
        NoDispatcherYet(site, init, before, first);
        OtherThanDispatcher(site, files, before, r);
        NewPathsSnoc(files + [f], site.Dispatcher(), |init|);
      } else {
        assert files + [f] + [] == files + [f];
      }
    }
  }

  lemma OtherThanDispatcher(site: Site, files: seq<File>, reg: Registry, r: Registration)
    requires NamespaceName(r.name) && Unused(files, site.DispatcherPath())
    ensures Unused(files + [ScriptFile(site, reg, r)], site.Dispatcher().containerPath)
  {
    ParsePrinted(site, Index(reg, r.name), r.name, Slot(reg, r.name));
  }
}
