/**
 * The functions of Go's standard library the durable allocator calls on paths and numbers:
 * path.Clean, path.Join, path.Dir, fmt's `%03d` verb and fmt.Sscanf with `%d`.
 */
module GoPath {
  import opened Results

  // ---------- path ----------

  /** The pieces of `p` between slashes. */
  function Split(p: string): (r: seq<string>)
    ensures r != []
  {
    if p == "" then [""]
    else if p[0] == '/' then [""] + Split(p[1..])
    else
      var r := Split(p[1..]);
      [[p[0]] + r[0]] + r[1..]
  }

  function JoinSlash(pieces: seq<string>): string
  {
    if pieces == [] then ""
    else if |pieces| == 1 then pieces[0]
    else pieces[0] + "/" + JoinSlash(pieces[1..])
  }

  /** Lexical processing of one piece after the other; `stack` is the path so far. */
  function Squash(pieces: seq<string>, rooted: bool, stack: seq<string>): seq<string>
  {
    if pieces == [] then stack
    else
      var piece, rest := pieces[0], pieces[1..];
      if piece == "" || piece == "." then Squash(rest, rooted, stack)
      else if piece == ".." then
        if stack != [] && stack[|stack| - 1] != ".." then Squash(rest, rooted, stack[..|stack| - 1])
        else if rooted then Squash(rest, rooted, stack)
        else Squash(rest, rooted, stack + [piece])
      else Squash(rest, rooted, stack + [piece])
  }

  /** path.Clean. */
  function Clean(p: string): string
  {
    if p == "" then "."
    else
      var rooted := p[0] == '/';
      var out := (if rooted then "/" else "") + JoinSlash(Squash(Split(p), rooted, []));
      if out == "" then "." else out
  }

  /** path.Join of two elements. */
  function Join(a: string, b: string): string
  {
    if a == "" then (if b == "" then "" else Clean(b))
    else if b == "" then Clean(a)
    else Clean(a + "/" + b)
  }

  /** The position after the last slash of `p`, 0 if there is none. */
  function AfterLastSlash(p: string): (i: nat)
    ensures i <= |p|
    ensures '/' !in p[i..]
    ensures i > 0 ==> p[i - 1] == '/'
  {
    if p == "" then 0
    else if p[|p| - 1] == '/' then |p|
    else
      var i := AfterLastSlash(p[..|p| - 1]);
      assert p[i..] == p[..|p| - 1][i..] + [p[|p| - 1]];
      i
  }

  /** path.Dir. */
  function Dir(p: string): string
  {
    Clean(p[..AfterLastSlash(p)])
  }

  /** A piece that Clean keeps as it is. */
  predicate Simple(piece: string)
  {
    piece != "" && piece != "." && piece != ".." && '/' !in piece
  }

  predicate AllSimple(pieces: seq<string>)
  {
    forall piece :: piece in pieces ==> Simple(piece)
  }

  lemma {:induction false} SplitPiece(piece: string, rest: string)
    requires '/' !in piece
    ensures Split(piece) == [piece]
    ensures Split(piece + ("/" + rest)) == [piece] + Split(rest)
    decreases |piece|
  {
    var tail := "/" + rest;
    if piece == "" {
      assert piece + tail == tail;
      assert tail[1..] == rest;
    } else {
      assert (piece + tail)[1..] == piece[1..] + tail;
      SplitPiece(piece[1..], rest);
      assert [piece[0]] + piece[1..] == piece;
    }
  }

  lemma SplitOne(piece: string)
    requires '/' !in piece
    ensures Split(piece) == [piece] && Split(piece + "/") == [piece, ""]
  {
    SplitPiece(piece, "");
    assert piece + "/" == piece + ("/" + "") && [piece] + [""] == [piece, ""];
  }

  lemma SplitMore(piece: string, tail: string)
    requires '/' !in piece
    ensures Split(piece + "/" + tail) == [piece] + Split(tail)
    ensures Split(piece + "/" + tail + "/") == [piece] + Split(tail + "/")
  {
    SplitPiece(piece, tail);
    SplitPiece(piece, tail + "/");
    assert piece + "/" + tail == piece + ("/" + tail);
    assert piece + "/" + tail + "/" == piece + ("/" + (tail + "/"));
  }

  /** Splitting undoes joining; a slash at the end adds an empty piece. */
  lemma {:induction false} SplitJoined(pieces: seq<string>)
    requires pieces != [] && AllSimple(pieces)
    ensures Split(JoinSlash(pieces)) == pieces
    ensures Split(JoinSlash(pieces) + "/") == pieces + [""]
    decreases |pieces|
  {
    var head := pieces[0];
    assert Simple(head);
    if |pieces| > 1 {
      SplitJoined(pieces[1..]);
      SplitMore(head, JoinSlash(pieces[1..]));
      assert [head] + pieces[1..] == pieces;
      assert [head] + (pieces[1..] + [""]) == pieces + [""];
    } else {
      SplitOne(head);
      assert pieces == [head] && pieces + [""] == [head, ""];
    }
  }

  lemma {:induction false} SquashSimple(pieces: seq<string>, rooted: bool, stack: seq<string>)
    requires AllSimple(pieces)
    ensures Squash(pieces, rooted, stack) == stack + pieces
    ensures Squash(pieces + [""], rooted, stack) == stack + pieces
    decreases |pieces|
  {
    if pieces == [] {
      assert stack + pieces == stack;
      assert ([""])[1..] == [];
    } else {
      assert Simple(pieces[0]);
      SquashSimple(pieces[1..], rooted, stack + [pieces[0]]);
      assert (pieces + [""])[1..] == pieces[1..] + [""];
      assert stack + [pieces[0]] + pieces[1..] == stack + pieces;
    }
  }

  /** A rooted path of simple pieces is already clean, and a slash at the end is dropped. */
  lemma CleanSimple(pieces: seq<string>)
    requires pieces != [] && AllSimple(pieces)
    ensures Clean("/" + JoinSlash(pieces)) == "/" + JoinSlash(pieces)
    ensures Clean("/" + JoinSlash(pieces) + "/") == "/" + JoinSlash(pieces)
  {
    var p := JoinSlash(pieces);
    SplitJoined(pieces);
    SquashSimple(pieces, true, []);
    assert ("/" + p)[1..] == p;
    assert ("/" + p + "/")[1..] == p + "/";
    assert ([""] + pieces)[1..] == pieces;
    assert ([""] + (pieces + [""]))[1..] == pieces + [""];
    assert [] + pieces == pieces;
  }

  lemma {:induction false} AfterLastSlashOf(dir: string, base: string)
    requires '/' !in base
    ensures AfterLastSlash(dir + "/" + base) == |dir| + 1
    decreases |base|
  {
    if base != "" {
      var shorter := base[..|base| - 1];
      assert (dir + "/" + base)[..|dir| + |base|] == dir + "/" + shorter;
      assert base[|base| - 1] in base;
      AfterLastSlashOf(dir, shorter);
    }
  }

  // ---------- numbers ----------

  predicate Digit(c: char)
  {
    '0' <= c <= '9'
  }

  function DigitChar(d: nat): (c: char)
    requires d < 10
    ensures Digit(c) && c as int == '0' as int + d
  {
    ('0' as int + d) as char
  }

  function Decimal(n: nat): (s: string)
    ensures s != "" && forall i :: 0 <= i < |s| ==> Digit(s[i])
  {
    if n < 10 then [DigitChar(n)] else Decimal(n / 10) + [DigitChar(n % 10)]
  }

  /** fmt's `%03d` for a number that is not negative. */
  function Pad3(n: nat): (s: string)
    ensures |s| >= 3 && forall i :: 0 <= i < |s| ==> Digit(s[i])
  {
    var d := Decimal(n);
    if |d| == 1 then "00" + d else if |d| == 2 then "0" + d else d
  }

  /** The number a string of digits stands for. */
  function NumberOf(s: string): nat
    requires forall i :: 0 <= i < |s| ==> Digit(s[i])
  {
    if s == "" then 0 else
    assert Digit(s[|s| - 1]);
    10 * NumberOf(s[..|s| - 1]) + (s[|s| - 1] as int - '0' as int)
  }

  /** The longest run of digits `s` starts with. */
  function DigitRun(s: string): (r: string)
    ensures forall i :: 0 <= i < |r| ==> Digit(r[i])
  {
    if s != "" && Digit(s[0]) then [s[0]] + DigitRun(s[1..]) else ""
  }

  /** White space Sscanf skips in front of a number. */
  predicate Space(c: char)
  {
    c == ' ' || (9 <= c as int <= 13 && c != '\n')
  }

  function SkipSpace(s: string): string
  {
    if s != "" && Space(s[0]) then SkipSpace(s[1..]) else s
  }

  const INT64_LIMIT: nat := 0x8000_0000_0000_0000

  /** fmt.Sscanf(s, "%d", &idx) on a text without `-`; what follows the digits is not looked at. */
  function ScanInt(s: string): Option<nat>
  {
    var t := SkipSpace(s);
    var run := DigitRun(if t != "" && t[0] == '+' then t[1..] else t);
    if run == "" || NumberOf(run) >= INT64_LIMIT then None else Some(NumberOf(run))
  }

  lemma {:induction false} NumberOfDecimal(n: nat)
    ensures NumberOf(Decimal(n)) == n
    decreases n
  {
    var s := Decimal(n);
    if n < 10 {
      assert s[..|s| - 1] == "";
    } else {
      NumberOfDecimal(n / 10);
      assert s[..|s| - 1] == Decimal(n / 10);
    }
  }

  lemma {:induction false} NumberOfZeros(s: string)
    requires forall i :: 0 <= i < |s| ==> Digit(s[i])
    ensures NumberOf("0" + s) == NumberOf(s)
    decreases |s|
  {
    var t := "0" + s;
    if s == "" {
      assert t[..|t| - 1] == "";
    } else {
      assert t[..|t| - 1] == "0" + s[..|s| - 1];
      NumberOfZeros(s[..|s| - 1]);
    }
  }

  lemma {:induction false} DigitRunAll(s: string)
    requires forall i :: 0 <= i < |s| ==> Digit(s[i])
    ensures DigitRun(s) == s
    decreases |s|
  {
    if s != "" {
      DigitRunAll(s[1..]);
    }
  }

  lemma NumberOfPad3(n: nat)
    ensures NumberOf(Pad3(n)) == n
  {
    var d := Decimal(n);
    NumberOfDecimal(n);
    NumberOfZeros(d);
    NumberOfZeros("0" + d);
    assert "0" + ("0" + d) == "00" + d;
  }

  /** Scanning undoes printing, for every index a Go int can hold. */
  lemma ScanPad3(n: nat)
    requires n < INT64_LIMIT
    ensures ScanInt(Pad3(n)) == Some(n)
  {
    NumberOfPad3(n);
    DigitRunAll(Pad3(n));
    assert Digit(Pad3(n)[0]);
  }
}
