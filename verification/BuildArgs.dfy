/**
 * image/dockerfiles.go: the images named by the FROM lines of a Dockerfile, with the references
 * `${NAME}` and `${NAME:-default}` of build arguments replaced.
 */
module BuildArgs {
  import opened GoStrings
  import opened Lists
  import opened Results

  /** A reference to a build argument, with the default if it has one. */
  datatype Ref = Ref(name: string, default: Option<string>)

  /** Build arguments; a nil pointer is None. */
  type Args = map<string, Option<string>>

  predicate InName(c: char)
  {
    c != '}' && c != ':' && c != '-'
  }

  /** What the pattern lets a reference be. */
  predicate IsRef(r: Ref)
  {
    && r.name != "" && (forall i :: 0 <= i < |r.name| ==> InName(r.name[i]))
    && (r.default.Some? ==> '}' !in r.default.value)
  }

  function Tail(r: Ref): string
  {
    if r.default.Some? then [':', '-'] + r.default.value + ['}'] else ['}']
  }

  /** The text of a reference. */
  function Text(r: Ref): string
  {
    ['$', '{'] + r.name + Tail(r)
  }

  /** In the pattern's own terms: `[^}:-]+` for the name, `[^}]*` for the default, and the text around them. */
  lemma ReferenceIs(r: Ref)
    ensures IsRef(r) <==>
      && r.name != "" && '}' !in r.name && ':' !in r.name && '-' !in r.name
      && (r.default.Some? ==> '}' !in r.default.value)
    ensures Text(r) == "${" + r.name + (if r.default.Some? then ":-" + r.default.value else "") + "}"
  {
    if IsRef(r) {
      assert forall c :: c in r.name ==> InName(c);
    }
    if r.default.Some? {
      assert ":-" + r.default.value + "}" == [':', '-'] + r.default.value + ['}'];
    }
  }

  // ---------- The pattern ----------

  /** The length of the longest prefix whose characters are all in the class. */
  function Span(s: string, inClass: char -> bool): (n: nat)
    ensures n <= |s| && forall i :: 0 <= i < n ==> inClass(s[i])
    ensures n < |s| ==> !inClass(s[n])
  {
    if s == "" || !inClass(s[0]) then 0 else 1 + Span(s[1..], inClass)
  }

  /** buildArgPattern, anchored at the start of `s`. */
  function MatchAt(s: string): Option<Ref>
  {
    if |s| < 2 || s[0] != '$' || s[1] != '{' then None
    else
      var n := Span(s[2..], InName);
      if n == 0 then None else MatchTail(s[2..2 + n], s[2 + n..])
  }

  /** The rest of the pattern: an optional default, and the closing brace. */
  function MatchTail(name: string, s: string): Option<Ref>
  {
    if s == "" then None
    else if s[0] == '}' then Some(Ref(name, None))
    else if |s| < 2 || s[0] != ':' || s[1] != '-' then None
    else
      var m := Span(s[2..], c => c != '}');
      if 2 + m == |s| then None else Some(Ref(name, Some(s[2..2 + m])))
  }

  lemma {:induction false} SpanIs(a: string, b: string, inClass: char -> bool)
    requires forall i :: 0 <= i < |a| ==> inClass(a[i])
    requires b != "" && !inClass(b[0])
    ensures Span(a + b, inClass) == |a|
  {
    if a == "" {
      assert a + b == b;
    } else {
      assert (a + b)[1..] == a[1..] + b;
      SpanIs(a[1..], b, inClass);
    }
  }

  lemma MatchTailFinds(name: string, r: Ref, rest: string)
    requires IsRef(r)
    ensures MatchTail(name, Tail(r) + rest) == Some(Ref(name, r.default))
  {
    var s := Tail(r) + rest;
    if r.default.Some? {
      var d := r.default.value;
      assert s[2..] == d + (['}'] + rest);
      SpanIs(d, ['}'] + rest, c => c != '}');
      assert s[2..2 + |d|] == d;
    }
  }

  /** A text with a dollar sign and a brace, then a name, then something that ends the name. */
  lemma MatchUnfolds(name: string, tail: string)
    requires name != "" && (forall i :: 0 <= i < |name| ==> InName(name[i])) && tail != "" && !InName(tail[0])
    ensures MatchAt(['$', '{'] + (name + tail)) == MatchTail(name, tail)
  {
    var s := ['$', '{'] + (name + tail);
    TakenApart(['$', '{'], name + tail);
    TakenApart(name, tail);
    SpanIs(name, tail, InName);
    assert s[2..2 + |name|] == s[2..][..|name|] && s[2 + |name|..] == s[2..][|name|..];
  }

  lemma MatchFinds(r: Ref, rest: string)
    requires IsRef(r)
    ensures MatchAt(Text(r) + rest) == Some(r)
  {
    assert Text(r) + rest == ['$', '{'] + (r.name + (Tail(r) + rest));
    MatchUnfolds(r.name, Tail(r) + rest);
    MatchTailFinds(r.name, r, rest);
  }

  lemma MatchTailSound(name: string, s: string)
    requires MatchTail(name, s).Some?
    ensures var r := MatchTail(name, s).value; r.name == name && Tail(r) <= s && (r.default.Some? ==> '}' !in r.default.value)
  {
    if s[0] != '}' {
      var m := Span(s[2..], c => c != '}');
      assert s[2 + m] == s[2..][m] == '}';
      assert s[..2 + m + 1] == [':', '-'] + s[2..2 + m] + ['}'];
    }
  }

  lemma Glue(s: string, a: string, b: string, c: string)
    requires a <= s && b <= s[|a|..] && c <= s[|a| + |b|..]
    ensures a + b + c <= s
  {
    var t := s[|a| + |b|..];
    assert s == a + s[|a|..] && s[|a|..] == b + t && t == c + t[|c|..];
    assert s == (a + b + c) + t[|c|..];
  }

  lemma MatchSound(s: string)
    requires MatchAt(s).Some?
    ensures IsRef(MatchAt(s).value) && Text(MatchAt(s).value) <= s
  {
    var n := Span(s[2..], InName);
    MatchTailSound(s[2..2 + n], s[2 + n..]);
    MatchParts(s, n, MatchAt(s).value);
  }

  lemma MatchParts(s: string, n: nat, r: Ref)
    requires 0 < n <= |s| - 2 && s[0] == '$' && s[1] == '{' && r.name == s[2..2 + n] && Tail(r) <= s[2 + n..]
    requires (forall i :: 0 <= i < n ==> InName(s[2..][i])) && (r.default.Some? ==> '}' !in r.default.value)
    ensures IsRef(r) && Text(r) <= s
  {
    assert forall i :: 0 <= i < n ==> r.name[i] == s[2..][i];
    assert ['$', '{'] == s[..2] && r.name == s[2..][..n];
    Glue(s, ['$', '{'], r.name, Tail(r));
  }

  /**
   * The pattern matches in one way at most at any place: the match found at the start of `s` is
   * the only reference whose text `s` begins with, and it is found if there is one.
   */
  lemma MatchIsExact(s: string, r: Ref)
    ensures MatchAt(s) == Some(r) <==> IsRef(r) && Text(r) <= s
  {
    if IsRef(r) && Text(r) <= s {
      MatchFinds(r, s[|Text(r)|..]);
      assert s == Text(r) + s[|Text(r)|..];
    }
    if MatchAt(s) == Some(r) {
      MatchSound(s);
    }
  }

  // ---------- Splitting ----------

  datatype Piece = Literal(c: char) | Reference(ref: Ref)

  function PieceText(p: Piece): string
  {
    match p
    case Literal(c) => [c]
    case Reference(r) => Text(r)
  }

  function Join(pieces: seq<Piece>): string
  {
    if pieces == [] then "" else PieceText(pieces[0]) + Join(pieces[1..])
  }

  /** The scan of ReplaceAllStringFunc: on with the match found here, or else with one character. */
  function Pieces(s: string): seq<Piece>
    decreases |s|
  {
    if s == "" then []
    else
      match MatchAt(s)
      case Some(r) => MatchIsExact(s, r); [Reference(r)] + Pieces(s[|Text(r)|..])
      case None => [Literal(s[0])] + Pieces(s[1..])
  }

  predicate RefsOnly(pieces: seq<Piece>)
  {
    forall i :: 0 <= i < |pieces| && pieces[i].Reference? ==> IsRef(pieces[i].ref)
  }

  /** A split of `s` into references and characters at which no reference begins. */
  ghost predicate IsSplit(pieces: seq<Piece>, s: string)
  {
    && Join(pieces) == s
    && RefsOnly(pieces)
    && (forall i, r :: 0 <= i < |pieces| && pieces[i].Literal? && IsRef(r) ==> !(Text(r) <= Join(pieces[i..])))
  }

  lemma SplitTail(pieces: seq<Piece>, s: string)
    requires IsSplit(pieces, s) && pieces != []
    ensures IsSplit(pieces[1..], s[|PieceText(pieces[0])|..])
  {
    var rest := pieces[1..];
    assert s[|PieceText(pieces[0])|..] == Join(rest);
    forall i, r | 0 <= i < |rest| && rest[i].Literal? && IsRef(r)
      ensures !(Text(r) <= Join(rest[i..]))
    {
      assert rest[i..] == pieces[i + 1..];
    }
  }

  lemma JoinCons(p: Piece, pieces: seq<Piece>)
    ensures Join([p] + pieces) == PieceText(p) + Join(pieces)
  {
    assert ([p] + pieces)[1..] == pieces;
  }

  lemma RefsCons(p: Piece, pieces: seq<Piece>)
    requires RefsOnly(pieces) && (p.Reference? ==> IsRef(p.ref))
    ensures RefsOnly([p] + pieces)
  {
  }

  lemma SplitCons(p: Piece, pieces: seq<Piece>, s: string)
    requires PieceText(p) <= s && IsSplit(pieces, s[|PieceText(p)|..])
    requires if p.Reference? then IsRef(p.ref) else MatchAt(s).None?
    ensures IsSplit([p] + pieces, s)
  {
    var all := [p] + pieces;
    JoinCons(p, pieces);
    assert s == PieceText(p) + s[|PieceText(p)|..];
    RefsCons(p, pieces);
    forall i, r | 0 <= i < |all| && all[i].Literal? && IsRef(r)
      ensures !(Text(r) <= Join(all[i..]))
    {
      NoneBeginsCons(p, pieces, s, i, r);
    }
  }

  lemma NoneBeginsCons(p: Piece, pieces: seq<Piece>, s: string, i: nat, r: Ref)
    requires var all := [p] + pieces; Join(all) == s && i < |all| && all[i].Literal? && IsRef(r)
    requires IsSplit(pieces, s[|PieceText(p)|..]) && (p.Literal? ==> MatchAt(s).None?) && |PieceText(p)| <= |s|
    ensures !(Text(r) <= Join(([p] + pieces)[i..]))
  {
    var all := [p] + pieces;
    if i == 0 {
      assert all[0..] == all;
      NoMatchAt(s, r);
    } else {
      assert all[i..] == pieces[i - 1..] && all[i] == pieces[i - 1];
      NoneBegins(pieces, s[|PieceText(p)|..], i - 1, r);
    }
  }

  lemma NoneBegins(pieces: seq<Piece>, s: string, i: nat, r: Ref)
    requires IsSplit(pieces, s) && i < |pieces| && pieces[i].Literal? && IsRef(r)
    ensures !(Text(r) <= Join(pieces[i..]))
  {
  }

  lemma NoMatchAt(s: string, r: Ref)
    requires MatchAt(s).None? && IsRef(r)
    ensures !(Text(r) <= s)
  {
    MatchIsExact(s, r);
  }

  lemma {:induction false} PiecesSplit(s: string)
    ensures IsSplit(Pieces(s), s)
    decreases |s|
  {
    if s != "" {
      if MatchAt(s).Some? {
        var r := MatchAt(s).value;
        MatchSound(s);
        PiecesSplit(s[|Text(r)|..]);
        SplitCons(Reference(r), Pieces(s[|Text(r)|..]), s);
      } else {
        PiecesSplit(s[1..]);
        SplitCons(Literal(s[0]), Pieces(s[1..]), s);
      }
    }
  }

  lemma {:induction false} SplitIsPieces(pieces: seq<Piece>, s: string)
    requires IsSplit(pieces, s)
    ensures pieces == Pieces(s)
    decreases |pieces|
  {
    if pieces != [] {
      SplitTail(pieces, s);
      SplitIsPieces(pieces[1..], s[|PieceText(pieces[0])|..]);
      SplitMatches(pieces, s);
      assert PieceText(pieces[0]) <= s && |PieceText(pieces[0])| > 0;
      PiecesStep(pieces[0], s);
    }
  }

  lemma PiecesStep(p: Piece, s: string)
    requires PieceText(p) <= s && MatchAt(s) == if p.Reference? then Some(p.ref) else None
    ensures Pieces(s) == [p] + Pieces(s[|PieceText(p)|..])
  {
  }

  /** The first piece of a split is what the scan finds. */
  lemma SplitMatches(pieces: seq<Piece>, s: string)
    requires IsSplit(pieces, s) && pieces != []
    ensures MatchAt(s) == if pieces[0].Reference? then Some(pieces[0].ref) else None
  {
    if pieces[0].Reference? {
      MatchIsExact(s, pieces[0].ref);
    } else if MatchAt(s).Some? {
      assert pieces[0..] == pieces;
      MatchSound(s);
    }
  }

  /** Every text splits in exactly one way into leftmost references and literal characters between them. */
  lemma SplitIsUnique(pieces: seq<Piece>, s: string)
    ensures IsSplit(pieces, s) <==> pieces == Pieces(s)
  {
    PiecesSplit(s);
    if IsSplit(pieces, s) {
      SplitIsPieces(pieces, s);
    }
  }

  // ---------- Replacing ----------

  /** The function handed to ReplaceAllStringFunc, which matches the text of the match once more. */
  function Replacement(text: string, args: Args): string
  {
    match MatchAt(text)
    case None => text
    case Some(m) =>
      var default := if m.default.Some? then m.default.value else "";
      if m.name in args && args[m.name].Some? then args[m.name].value
      else if default != "" then default
      else text
  }

  function ReplacePieces(pieces: seq<Piece>, args: Args): string
  {
    if pieces == [] then ""
    else
      var p := pieces[0];
      (if p.Literal? then [p.c] else Replacement(Text(p.ref), args)) + ReplacePieces(pieces[1..], args)
  }

  function HandleBuildArgs(part: string, args: Args): string
  {
    ReplacePieces(Pieces(part), args)
  }

  /** What a reference stands for. */
  function Value(r: Ref, args: Args): string
  {
    if r.name in args && args[r.name].Some? then args[r.name].value
    else if r.default.Some? && r.default.value != "" then r.default.value
    else Text(r)
  }

  /** Matching the match again gives the same name and default. */
  lemma ReplacementIsValue(r: Ref, args: Args)
    requires IsRef(r)
    ensures Replacement(Text(r), args) == Value(r, args)
  {
    MatchFinds(r, "");
    assert Text(r) + "" == Text(r);
  }

  /** A reference at the front: its value comes out as it is, whatever is in it, and does not affect the rest. */
  lemma HandleReference(r: Ref, rest: string, args: Args)
    requires IsRef(r)
    ensures HandleBuildArgs(Text(r) + rest, args) == Value(r, args) + HandleBuildArgs(rest, args)
  {
    var s := Text(r) + rest;
    MatchFinds(r, rest);
    assert s[|Text(r)|..] == rest;
    assert Pieces(s)[1..] == Pieces(rest);
    ReplacementIsValue(r, args);
  }

  /** A character at which no reference begins stays. */
  lemma HandleLiteral(s: string, args: Args)
    requires s != "" && forall r :: IsRef(r) ==> !(Text(r) <= s)
    ensures HandleBuildArgs(s, args) == [s[0]] + HandleBuildArgs(s[1..], args)
  {
    if MatchAt(s).Some? {
      MatchIsExact(s, MatchAt(s).value);
    }
    assert Pieces(s)[1..] == Pieces(s[1..]);
  }

  /** The replacement of a split text, piece by piece. */
  function Meaning(pieces: seq<Piece>, args: Args): string
  {
    if pieces == [] then ""
    else (if pieces[0].Literal? then [pieces[0].c] else Value(pieces[0].ref, args)) + Meaning(pieces[1..], args)
  }

  /**
   * For every text and every split of it: the result is that split with each reference replaced by
   * its value, once.
   */
  lemma {:induction false} ReplacesOnce(pieces: seq<Piece>, s: string, args: Args)
    requires IsSplit(pieces, s)
    ensures HandleBuildArgs(s, args) == Meaning(pieces, args)
    decreases |pieces|
  {
    if pieces != [] {
      var p, rest := pieces[0], s[|PieceText(pieces[0])|..];
      SplitTail(pieces, s);
      ReplacesOnce(pieces[1..], rest, args);
      assert s == PieceText(p) + rest;
      if p.Reference? {
        HandleReference(p.ref, rest, args);
      } else {
        assert pieces[0..] == pieces;
        HandleLiteral(s, args);
      }
    }
  }

  /** Writing pieces down and splitting the text again gives them back, if no literal is a dollar sign. */
  lemma {:induction false} JoinSplits(pieces: seq<Piece>)
    requires forall i :: 0 <= i < |pieces| ==> if pieces[i].Literal? then pieces[i].c != '$' else IsRef(pieces[i].ref)
    ensures Pieces(Join(pieces)) == pieces
  {
    forall i, r | 0 <= i < |pieces| && pieces[i].Literal? && IsRef(r)
      ensures !(Text(r) <= Join(pieces[i..]))
    {
      assert pieces[i..][0] == pieces[i];
      assert Join(pieces[i..])[0] == pieces[i].c && Text(r)[0] == '$';
    }
    SplitIsUnique(pieces, Join(pieces));
  }

  // ---------- FROM lines ----------

  predicate IsSpace(c: char)
  {
    c == ' ' || '\t' <= c <= '\r'
  }

  function TrimLeft(s: string): string
  {
    if s != "" && IsSpace(s[0]) then TrimLeft(s[1..]) else s
  }

  function TrimRight(s: string): string
  {
    if s != "" && IsSpace(s[|s| - 1]) then TrimRight(s[..|s| - 1]) else s
  }

  /** strings.TrimSpace on ASCII text. */
  function TrimSpace(s: string): string
  {
    TrimRight(TrimLeft(s))
  }

  function Upper(c: char): char
  {
    if 'a' <= c <= 'z' then c - 'a' + 'A' else c
  }

  /** Whether strings.ToUpper turns `s` into a text that begins with FROM. */
  predicate LooksLikeFrom(s: string)
  {
    |s| >= 4 && Upper(s[0]) == 'F' && Upper(s[1]) == 'R' && Upper(s[2]) == 'O' && Upper(s[3]) == 'M'
  }

  /** strings.TrimPrefix(s, "FROM"), which minds the case. */
  function TrimFrom(s: string): string
  {
    if ['F', 'R', 'O', 'M'] <= s then s[4..] else s
  }

  /** The first element of strings.Split(s, " "). */
  function FirstPart(s: string): string
  {
    s[..Span(s, c => c != ' ')]
  }

  /** The part of a line that is taken for the image, if the line is taken for a FROM line. */
  function PartOf(line: string): Option<string>
  {
    var trimmed := TrimSpace(line);
    if LooksLikeFrom(trimmed) then Some(FirstPart(TrimSpace(TrimFrom(trimmed)))) else None
  }

  function ImageOf(line: string, args: Args): Option<string>
  {
    match PartOf(line)
    case None => None
    case Some(part) => Some(HandleBuildArgs(part, args))
  }

  function Images(lines: seq<string>, args: Args): seq<string>
  {
    if lines == [] then []
    else
      var image := ImageOf(lines[|lines| - 1], args);
      Images(lines[..|lines| - 1], args) + if image.Some? then [image.value] else []
  }

  /** ImagesFromReader, behind the scanner: its lines, or its error. */
  method ImagesFromReader<E>(scanned: Result<seq<string>, E>, args: Args) returns (r: Result<seq<string>, E>)
    ensures r == if scanned.Ok? then Ok(Images(scanned.value, args)) else Err(scanned.error)
  {
    if scanned.Err? {
      return Err(scanned.error);
    }
    var lines := scanned.value;
    var images: seq<string> := [];
    for i := 0 to |lines|
      invariant images == Images(lines[..i], args)
    {
      assert lines[..i + 1][..i] == lines[..i];
      var line := TrimSpace(lines[i]);
      if LooksLikeFrom(line) {
        line := TrimFrom(line);
        images := images + [HandleBuildArgs(FirstPart(TrimSpace(line)), args)];
      }
    }
    assert lines[..|lines|] == lines;
    return Ok(images);
  }

  /** A word: not empty, without white space. */
  predicate IsWord(s: string)
  {
    s != "" && forall i :: 0 <= i < |s| ==> !IsSpace(s[i])
  }

  predicate IsBlank(s: string)
  {
    forall i :: 0 <= i < |s| ==> IsSpace(s[i])
  }

  lemma {:induction false} TrimLeftDrops(a: string, b: string)
    requires IsBlank(a) && (b == "" || !IsSpace(b[0]))
    ensures TrimLeft(a + b) == b
  {
    if a == "" {
      assert a + b == b;
    } else {
      assert (a + b)[1..] == a[1..] + b;
      TrimLeftDrops(a[1..], b);
    }
  }

  /** `kept` is what is left of `rest` when white space at its end is dropped, or some of it. */
  predicate Keeps(rest: string, kept: string)
  {
    kept <= rest && IsBlank(rest[|kept|..])
  }

  /** Trimming at the right does not get past a character that is no white space. */
  lemma {:induction false} TrimRightKeeps(head: string, rest: string) returns (kept: string)
    requires head != "" && !IsSpace(head[|head| - 1])
    ensures TrimRight(head + rest) == head + kept && Keeps(rest, kept)
    ensures kept == "" || !IsSpace(kept[|kept| - 1])
    decreases |rest|
  {
    var s := head + rest;
    if rest == "" {
      kept := "";
      assert s == head && head + "" == head;
    } else if IsSpace(s[|s| - 1]) {
      var init := rest[..|rest| - 1];
      assert s[..|s| - 1] == head + init;
      kept := TrimRightKeeps(head, init);
      assert rest[|kept|..] == init[|kept|..] + [s[|s| - 1]];
    } else {
      kept := rest;
    }
  }

  /** Nothing is kept exactly if there is only white space, and what is kept starts as before. */
  lemma KeptStart(rest: string, kept: string)
    requires Keeps(rest, kept) && (kept == "" || !IsSpace(kept[|kept| - 1]))
    ensures kept == "" <==> IsBlank(rest)
    ensures kept != "" ==> kept[0] == rest[0]
  {
    if kept != "" {
      assert rest[|kept| - 1] == kept[|kept| - 1];
    }
  }

  /** A word at the start is part of the first part, which goes on up to the first blank. */
  lemma FirstPartOf(word: string, rest: string)
    requires forall i :: 0 <= i < |word| ==> word[i] != ' '
    ensures FirstPart(word + rest) == word + FirstPart(rest)
    ensures FirstPart(rest) == "" <==> rest == "" || rest[0] == ' '
    ensures FirstPart(rest) != "" ==> FirstPart(rest)[0] == rest[0]
    decreases |word|
  {
    if word == "" {
      assert word + rest == rest;
    } else {
      var s := word + rest;
      assert s[1..] == word[1..] + rest;
      FirstPartOf(word[1..], rest);
      var inClass := (c: char) => c != ' ';
      assert Span(s, inClass) == 1 + Span(s[1..], inClass);
      assert FirstPart(s) == [s[0]] + FirstPart(s[1..]);
    }
  }

  // ---------- Telling texts apart by what they become ----------

  /** The length of the match at the start of a text, 0 if there is none. */
  function MatchLength(s: string): nat
  {
    if MatchAt(s).Some? then |Text(MatchAt(s).value)| else 0
  }

  type Scanner = string -> nat

  /** Matches are parts of the text, and start with a dollar sign. */
  ghost predicate AtDollar(len: Scanner)
  {
    forall s :: len(s) > 0 ==> len(s) <= |s| && s[0] == '$'
  }

  /** All that is needed of MatchLength here. */
  ghost predicate Scans(len: Scanner)
  {
    && AtDollar(len)
    && (forall s, more :: len(s) > 0 ==> len(s + more) == len(s))
  }

  lemma MatchLengthScans()
    ensures Scans(MatchLength)
  {
    forall s | MatchLength(s) > 0
      ensures MatchLength(s) <= |s| && s[0] == '$'
    {
      MatchSound(s);
    }
    forall s, more | MatchLength(s) > 0
      ensures MatchLength(s + more) == MatchLength(s)
    {
      MatchSound(s);
      assert Text(MatchAt(s).value) <= s + more;
      MatchIsExact(s + more, MatchAt(s).value);
    }
  }

  /** The text with a nought for every match. */
  function Skeleton(s: string, len: Scanner): string
    decreases |s|
  {
    if s == "" then ""
    else if 0 < len(s) <= |s| then ['0'] + Skeleton(s[len(s)..], len)
    else [s[0]] + Skeleton(s[1..], len)
  }

  lemma ConsDiffers(x: char, a: string, y: char, b: string)
    requires x != y || a != b
    ensures [x] + a != [y] + b
  {
    var u, v := [x] + a, [y] + b;
    assert u[0] == x && u[1..] == a && v[0] == y && v[1..] == b;
  }

  lemma {:induction false} LongerDiffers(a: string, more: string, len: Scanner)
    requires Scans(len) && more != ""
    ensures Skeleton(a + more, len) != Skeleton(a, len)
    decreases |a|
  {
    var s := a + more;
    if a != "" {
      if len(a) > 0 {
        var n := len(a);
        assert s[n..] == a[n..] + more;
        LongerDiffers(a[n..], more, len);
        ConsDiffers('0', Skeleton(s[n..], len), '0', Skeleton(a[n..], len));
      } else if len(s) > 0 {
        ConsDiffers('0', Skeleton(s[len(s)..], len), a[0], Skeleton(a[1..], len));
      } else {
        assert s[1..] == a[1..] + more;
        LongerDiffers(a[1..], more, len);
        ConsDiffers(a[0], Skeleton(s[1..], len), a[0], Skeleton(a[1..], len));
      }
    }
  }

  lemma SkeletonStep(c: char, tail: string, len: Scanner)
    requires AtDollar(len) && c != '$'
    ensures Skeleton([c] + tail, len) == [c] + Skeleton(tail, len)
  {
    var s := [c] + tail;
    assert s[0] == c && s[1..] == tail && len(s) == 0;
  }

  lemma ConsJoin(c: char, a: string, b: string)
    ensures ([c] + a) + b == [c] + (a + b)
  {
  }

  lemma {:induction false} SkeletonOfWord(word: string, rest: string, len: Scanner)
    requires AtDollar(len) && '$' !in word
    ensures Skeleton(word + rest, len) == word + Skeleton(rest, len)
    decreases |word|
  {
    if word == "" {
      assert word + rest == rest && word + Skeleton(rest, len) == Skeleton(rest, len);
    } else {
      var c, tail := word[0], word[1..];
      SkeletonOfWord(tail, rest, len);
      SkeletonStep(c, tail + rest, len);
      assert word == [c] + tail;
      ConsJoin(c, tail, rest);
      ConsJoin(c, tail, Skeleton(rest, len));
    }
  }

  /** The skeleton of a word has no white space, and without a nought in it is the word itself. */
  lemma {:induction false} SkeletonHasNoSpace(s: string, len: Scanner)
    requires forall i :: 0 <= i < |s| ==> !IsSpace(s[i])
    ensures var k := Skeleton(s, len); (forall i :: 0 <= i < |k| ==> !IsSpace(k[i])) && ('0' !in k ==> k == s)
    decreases |s|
  {
    if s != "" {
      if 0 < len(s) <= |s| {
        SkeletonHasNoSpace(s[len(s)..], len);
        assert Skeleton(s, len)[0] == '0';
      } else {
        SkeletonHasNoSpace(s[1..], len);
        assert s == [s[0]] + s[1..];
      }
    }
  }

  lemma DashesDiffer(flag: string, image: string, len: Scanner)
    requires Scans(len) && ['-', '-'] <= flag && !(['-', '-'] <= image)
    ensures Skeleton(flag, len) != Skeleton(image, len)
  {
    assert flag == ['-', '-'] + flag[2..];
    SkeletonOfWord(['-', '-'], flag[2..], len);
    var dashes := ['-', '-'] + Skeleton(flag[2..], len);
    assert dashes[0] == '-' && dashes[1] == '-';
    if |image| > 1 && image[0] == '-' {
      var k := Skeleton(image[1..], len);
      assert k[0] != '-' && Skeleton(image, len) == ['-'] + k;
      assert (['-'] + k)[1] == k[0];
    }
  }

  lemma KeywordDiffers(keyword: string, more: string, image: string, len: Scanner)
    requires Scans(len) && IsKeyword(keyword) && IsWord(image) && (more != "" ==> IsSpace(more[0]))
    ensures Skeleton(keyword + more, len) == Skeleton(image, len) ==> image == keyword && more == ""
  {
    KeywordIsWord(keyword);
    SkeletonOfWord(keyword, more, len);
    SkeletonHasNoSpace(image, len);
    if more != "" {
      assert (keyword + Skeleton(more, len))[4] == more[0];
    } else {
      assert keyword + Skeleton("", len) == keyword;
    }
  }

  // ---------- Arguments that make skeletons ----------

  function RefNames(pieces: seq<Piece>): set<string>
  {
    if pieces == [] then {}
    else (if pieces[0].Reference? then {pieces[0].ref.name} else {}) + RefNames(pieces[1..])
  }

  /** Arguments that turn every reference of two texts into a nought. */
  function Noughts(a: string, b: string): Args
  {
    map name | name in RefNames(Pieces(a)) + RefNames(Pieces(b)) :: Some("0")
  }

  lemma {:induction false} BecomesSkeleton(pieces: seq<Piece>, s: string, args: Args)
    requires IsSplit(pieces, s)
    requires forall name :: name in RefNames(pieces) ==> name in args && args[name] == Some("0")
    ensures Meaning(pieces, args) == Skeleton(s, MatchLength)
    decreases |pieces|
  {
    if pieces != [] {
      SplitTail(pieces, s);
      SplitMatches(pieces, s);
      BecomesSkeleton(pieces[1..], s[|PieceText(pieces[0])|..], args);
      assert s == PieceText(pieces[0]) + s[|PieceText(pieces[0])|..];
    }
  }

  /** Two texts with different skeletons become different texts under some arguments. */
  lemma ToldApart(a: string, b: string)
    requires Skeleton(a, MatchLength) != Skeleton(b, MatchLength)
    ensures exists args: Args :: HandleBuildArgs(a, args) != HandleBuildArgs(b, args)
  {
    var args := Noughts(a, b);
    PiecesSplit(a);
    PiecesSplit(b);
    ReplacesOnce(Pieces(a), a, args);
    ReplacesOnce(Pieces(b), b, args);
    BecomesSkeleton(Pieces(a), a, args);
    BecomesSkeleton(Pieces(b), b, args);
    assert HandleBuildArgs(a, args) != HandleBuildArgs(b, args);
  }

  // ---------- FROM lines with flags ----------

  const FROM := ['F', 'R', 'O', 'M']

  /** FROM in any mixture of cases. */
  predicate IsKeyword(keyword: string)
  {
    |keyword| == 4 && keyword[0] in "Ff" && keyword[1] in "Rr" && keyword[2] in "Oo" && keyword[3] in "Mm"
  }

  lemma KeywordIsWord(keyword: string)
    requires IsKeyword(keyword)
    ensures IsWord(keyword) && '$' !in keyword && '0' !in keyword
  {
  }

  /** A flag such as `--platform=linux/amd64`, with the white space behind it. */
  datatype Flag = Flag(word: string, gap: string)

  predicate IsFlag(f: Flag)
  {
    IsWord(f.word) && ['-', '-'] <= f.word && f.gap != "" && IsBlank(f.gap)
  }

  function FlagsText(flags: seq<Flag>): string
  {
    if flags == [] then "" else flags[0].word + flags[0].gap + FlagsText(flags[1..])
  }

  /** Everything of a FROM line up to its image. */
  function LineHead(keyword: string, gap: string, flags: seq<Flag>, image: string): string
  {
    keyword + (gap + (FlagsText(flags) + image))
  }

  predicate IsFromLine(pad: string, keyword: string, gap: string, flags: seq<Flag>, image: string, rest: string)
  {
    && IsBlank(pad) && IsKeyword(keyword) && gap != "" && IsBlank(gap)
    && (forall f :: f in flags ==> IsFlag(f))
    && IsWord(image) && !(['-', '-'] <= image)
    && (rest != "" ==> IsSpace(rest[0]))
  }

  /** Where the image is found: nothing between keyword and image, and a blank, if anything, behind it. */
  predicate ImageFound(keyword: string, gap: string, flags: seq<Flag>, image: string, rest: string)
    requires gap != ""
  {
    if keyword == FROM then flags == [] && (IsBlank(rest) || rest[0] == ' ')
    else image == keyword && gap[0] == ' '
  }

  lemma LineTrimmed(pad: string, keyword: string, gap: string, flags: seq<Flag>, image: string, rest: string) returns (kept: string)
    requires IsFromLine(pad, keyword, gap, flags, image, rest)
    ensures TrimSpace(pad + (LineHead(keyword, gap, flags, image) + rest)) == LineHead(keyword, gap, flags, image) + kept
    ensures Keeps(rest, kept) && (kept == "" || !IsSpace(kept[|kept| - 1]))
    ensures var head := LineHead(keyword, gap, flags, image);
      head != "" && !IsSpace(head[|head| - 1]) && !IsSpace(head[0]) && LooksLikeFrom(head + kept)
  {
    var head := LineHead(keyword, gap, flags, image);
    KeywordIsWord(keyword);
    assert head[0] == keyword[0] && head[1] == keyword[1] && head[2] == keyword[2] && head[3] == keyword[3];
    assert head[|head| - 1] == image[|image| - 1];
    TrimLeftDrops(pad, head + rest);
    kept := TrimRightKeeps(head, rest);
  }

  /** Trimming text that is trimmed already. */
  lemma TrimAgain(pad: string, head: string, kept: string)
    requires IsBlank(pad) && head != "" && !IsSpace(head[0]) && !IsSpace(head[|head| - 1])
    requires kept == "" || !IsSpace(kept[|kept| - 1])
    ensures TrimSpace(pad + (head + kept)) == head + kept
  {
    TrimLeftDrops(pad, head + kept);
    if kept != "" {
      assert (head + kept)[|head + kept| - 1] == kept[|kept| - 1];
    } else {
      assert head + kept == head;
    }
  }

  /** What is taken for the image when the keyword is in capitals. */
  lemma CapitalPart(pad: string, gap: string, flags: seq<Flag>, image: string, rest: string) returns (kept: string)
    requires IsFromLine(pad, FROM, gap, flags, image, rest)
    ensures PartOf(pad + (LineHead(FROM, gap, flags, image) + rest)) == Some(FirstPart(FlagsText(flags) + image + kept))
    ensures Keeps(rest, kept) && (kept == "" || !IsSpace(kept[|kept| - 1]))
  {
    kept := LineTrimmed(pad, FROM, gap, flags, image, rest);
    var body := FlagsText(flags) + image;
    HeadText(FROM, gap, flags, image, kept);
    CapitalTrim(gap + (body + kept));
    BodyEnds(flags, image);
    TrimAgain(gap, body, kept);
    PartFrom(pad + (LineHead(FROM, gap, flags, image) + rest), LineHead(FROM, gap, flags, image) + kept, body + kept);
  }

  lemma CapitalTrim(behind: string)
    ensures TrimFrom(FROM + behind) == behind
  {
  }

  lemma BodyEnds(flags: seq<Flag>, image: string)
    requires (forall f :: f in flags ==> IsFlag(f)) && IsWord(image)
    ensures var body := FlagsText(flags) + image; body != "" && !IsSpace(body[0]) && !IsSpace(body[|body| - 1])
    ensures flags != [] ==> ['-', '-'] <= FlagsText(flags) && flags[0].word <= FlagsText(flags)
  {
    var body := FlagsText(flags) + image;
    assert body[|body| - 1] == image[|image| - 1];
    if flags != [] {
      assert flags[0] in flags;
      assert FlagsText(flags) == flags[0].word + (flags[0].gap + FlagsText(flags[1..]));
    }
  }

  lemma OtherTrim(keyword: string, behind: string)
    requires |keyword| == 4 && keyword != FROM
    ensures TrimFrom(keyword + behind) == keyword + behind
  {
    assert (keyword + behind)[..4] == keyword;
  }

  lemma HeadText(keyword: string, gap: string, flags: seq<Flag>, image: string, kept: string)
    ensures LineHead(keyword, gap, flags, image) + kept == keyword + (gap + (FlagsText(flags) + image + kept))
  {
    var body := FlagsText(flags) + image;
    assert gap + body + kept == gap + (body + kept);
    assert keyword + (gap + body) + kept == keyword + (gap + body + kept);
  }

  lemma PartFrom(line: string, trimmed: string, body: string)
    requires TrimSpace(line) == trimmed && LooksLikeFrom(trimmed) && TrimSpace(TrimFrom(trimmed)) == body
    ensures PartOf(line) == Some(FirstPart(body))
  {
  }

  /** And when it is not. */
  lemma OtherPart(pad: string, keyword: string, gap: string, flags: seq<Flag>, image: string, rest: string) returns (more: string)
    requires IsFromLine(pad, keyword, gap, flags, image, rest) && keyword != FROM
    ensures PartOf(pad + (LineHead(keyword, gap, flags, image) + rest)) == Some(keyword + more)
    ensures (more == "" <==> gap[0] == ' ') && (more != "" ==> IsSpace(more[0]))
  {
    var kept := LineTrimmed(pad, keyword, gap, flags, image, rest);
    var head := LineHead(keyword, gap, flags, image);
    var behind := gap + (FlagsText(flags) + image + kept);
    HeadText(keyword, gap, flags, image, kept);
    OtherTrim(keyword, behind);
    TrimAgain("", head, kept);
    assert "" + (head + kept) == head + kept;
    PartFrom(pad + (head + rest), head + kept, keyword + behind);
    more := BehindKeyword(keyword, gap, behind);
  }

  lemma BehindKeyword(keyword: string, gap: string, behind: string) returns (more: string)
    requires IsKeyword(keyword) && gap != "" && IsBlank(gap) && gap <= behind
    ensures FirstPart(keyword + behind) == keyword + more
    ensures (more == "" <==> gap[0] == ' ') && (more != "" ==> IsSpace(more[0]))
  {
    KeywordIsWord(keyword);
    FirstPartOf(keyword, behind);
    more := FirstPart(behind);
    assert behind[0] == gap[0];
  }

  /** Without flags the part is the image exactly if a blank, or nothing, follows it. */
  lemma PartWithoutFlags(image: string, rest: string, kept: string, len: Scanner)
    requires Scans(len) && IsWord(image) && Keeps(rest, kept) && (kept == "" || !IsSpace(kept[|kept| - 1]))
    ensures var part := FirstPart(image + kept);
      if IsBlank(rest) || rest[0] == ' ' then part == image else Skeleton(part, len) != Skeleton(image, len)
  {
    KeptStart(rest, kept);
    FirstPartOf(image, kept);
    if FirstPart(kept) == "" {
      assert image + "" == image;
    } else {
      LongerDiffers(image, FirstPart(kept), len);
    }
  }

  /** With flags it starts like the first of them. */
  lemma PartWithFlags(flags: seq<Flag>, image: string, kept: string, len: Scanner)
    requires Scans(len) && flags != [] && (forall f :: f in flags ==> IsFlag(f)) && IsWord(image) && !(['-', '-'] <= image)
    ensures Skeleton(FirstPart(FlagsText(flags) + image + kept), len) != Skeleton(image, len)
  {
    BodyEnds(flags, image);
    var word, text := flags[0].word, FlagsText(flags) + image + kept;
    assert flags[0] in flags;
    assert text == word + text[|word|..];
    FirstPartOf(word, text[|word|..]);
    DashesDiffer(FirstPart(text), image, len);
  }

  /** The part that differs from the image is told apart from it by some arguments. */
  lemma CapitalExact(pad: string, gap: string, flags: seq<Flag>, image: string, rest: string, len: Scanner)
    requires Scans(len) && IsFromLine(pad, FROM, gap, flags, image, rest)
    ensures var part := PartOf(pad + (LineHead(FROM, gap, flags, image) + rest));
      part.Some? &&
      if ImageFound(FROM, gap, flags, image, rest) then part.value == image else Skeleton(part.value, len) != Skeleton(image, len)
  {
    var kept := CapitalPart(pad, gap, flags, image, rest);
    if flags == [] {
      assert FlagsText(flags) + image + kept == image + kept;
      PartWithoutFlags(image, rest, kept, len);
    } else {
      PartWithFlags(flags, image, kept, len);
    }
  }

  /**
   * A line with FROM in any mixture of cases, any flags and an image, each set off by any white
   * space, is taken for a FROM line.  The result is the image's replacement, whatever the build
   * arguments, exactly if either FROM is in capitals, there are no flags and what follows the image,
   * if anything, starts with a blank; or FROM is not in capitals, a blank follows it, and the image
   * happens to be called like it.
   */
  lemma FromLineIsExact(pad: string, keyword: string, gap: string, flags: seq<Flag>, image: string, rest: string)
    requires IsFromLine(pad, keyword, gap, flags, image, rest)
    ensures var line := pad + (LineHead(keyword, gap, flags, image) + rest);
      && PartOf(line).Some?
      && ((forall args :: ImageOf(line, args) == Some(HandleBuildArgs(image, args))) <==> ImageFound(keyword, gap, flags, image, rest))
  {
    var line := pad + (LineHead(keyword, gap, flags, image) + rest);
    MatchLengthScans();
    if keyword == FROM {
      CapitalExact(pad, gap, flags, image, rest, MatchLength);
    } else {
      var more := OtherPart(pad, keyword, gap, flags, image, rest);
      KeywordDiffers(keyword, more, image, MatchLength);
      assert keyword + "" == keyword;
    }
    var part := PartOf(line).value;
    if !ImageFound(keyword, gap, flags, image, rest) {
      ToldApart(part, image);
      var args: Args :| HandleBuildArgs(part, args) != HandleBuildArgs(image, args);
      assert ImageOf(line, args) != Some(HandleBuildArgs(image, args));
    }
  }

  // ---------- Which lines are taken for FROM lines ----------

  /** White space, FROM in any mixture of cases, and anything. */
  ghost predicate BeginsWithKeyword(line: string)
  {
    exists pad, keyword, behind :: IsBlank(pad) && IsKeyword(keyword) && line == pad + (keyword + behind)
  }

  lemma {:induction false} TrimLeftIs(s: string) returns (pad: string)
    ensures IsBlank(pad) && s == pad + TrimLeft(s)
  {
    if s != "" && IsSpace(s[0]) {
      pad := TrimLeftIs(s[1..]);
      pad := [s[0]] + pad;
    } else {
      pad := "";
    }
  }

  lemma {:induction false} TrimRightIs(s: string) returns (tail: string)
    ensures s == TrimRight(s) + tail
    decreases |s|
  {
    if s != "" && IsSpace(s[|s| - 1]) {
      tail := TrimRightIs(s[..|s| - 1]);
      tail := tail + [s[|s| - 1]];
    } else {
      tail := "";
    }
  }

  lemma KeywordTrimmed(pad: string, keyword: string, behind: string) returns (kept: string)
    requires IsBlank(pad) && IsKeyword(keyword)
    ensures TrimSpace(pad + (keyword + behind)) == keyword + kept && LooksLikeFrom(keyword + kept)
  {
    assert !IsSpace(keyword[0]) && (keyword + behind)[0] == keyword[0];
    TrimLeftDrops(pad, keyword + behind);
    kept := TrimRightKeeps(keyword, behind);
    assert (keyword + kept)[..4] == keyword;
    SameKeyword(keyword, keyword + kept);
  }

  lemma SameKeyword(keyword: string, s: string)
    requires |s| >= 4 && keyword == s[..4]
    ensures IsKeyword(keyword) <==> LooksLikeFrom(s)
  {
    assert keyword[0] == s[0] && keyword[1] == s[1] && keyword[2] == s[2] && keyword[3] == s[3];
  }

  /** A line is taken for a FROM line exactly if it begins with the keyword, whatever is glued to it. */
  lemma TakenExactly(line: string)
    ensures PartOf(line).Some? <==> BeginsWithKeyword(line)
  {
    if PartOf(line).Some? {
      var pad := TrimLeftIs(line);
      var tail := TrimRightIs(TrimLeft(line));
      var s := TrimSpace(line);
      SameKeyword(s[..4], s);
      assert TrimLeft(line) == s[..4] + (s[4..] + tail);
    }
    if BeginsWithKeyword(line) {
      var pad, keyword, behind :| IsBlank(pad) && IsKeyword(keyword) && line == pad + (keyword + behind);
      var kept := KeywordTrimmed(pad, keyword, behind);
    }
  }

  /**
   * What such a line gives when a text without white space follows the keyword, if nothing or a blank
   * follows that: after FROM in capitals the text, be it a flag, glued to the keyword as in `FROMAGE`,
   * or empty; and otherwise the keyword with the text glued to it.
   */
  lemma TakenPart(pad: string, keyword: string, gap: string, text: string, rest: string)
    requires IsBlank(pad) && IsKeyword(keyword) && IsBlank(gap) && (keyword != FROM ==> gap == "")
    requires text == "" || IsWord(text)
    requires IsBlank(rest) || (text != "" && rest[0] == ' ')
    ensures PartOf(pad + (keyword + (gap + (text + rest)))) == Some(if keyword == FROM then text else keyword + text)
  {
    if text == "" {
      assert gap + (text + rest) == gap + rest;
      BareKeyword(pad, keyword, gap + rest);
      assert keyword + "" == keyword;
    } else if keyword == FROM {
      var kept := GluedTrimmed(pad, FROM, gap + text, rest);
      Regroup(FROM, gap, text, rest);
      Regroup(FROM, gap, text, kept);
      CapitalTrim(gap + (text + kept));
      TrimAgain(gap, text, kept);
      PartFrom(pad + (FROM + (gap + (text + rest))), FROM + (gap + (text + kept)), text + kept);
      PartBehind(text, kept);
    } else {
      var kept := GluedTrimmed(pad, keyword, text, rest);
      Regroup(keyword, "", text, rest);
      assert gap + (text + rest) == text + rest && "" + text == text;
      OtherGlued(pad + ((keyword + text) + rest), keyword, text, kept);
    }
  }

  lemma Regroup(a: string, b: string, c: string, d: string)
    ensures a + (b + (c + d)) == (a + (b + c)) + d
  {
  }

  lemma PartBehind(word: string, kept: string)
    requires IsWord(word) && (kept == "" || kept[0] == ' ')
    ensures FirstPart(word + kept) == word
  {
    FirstPartOf(word, kept);
    assert word + "" == word;
  }

  /** A line that starts with a keyword and what is glued to it, trimmed. */
  lemma GluedTrimmed(pad: string, keyword: string, more: string, rest: string) returns (kept: string)
    requires IsBlank(pad) && IsKeyword(keyword) && more != "" && !IsSpace(more[|more| - 1])
    requires IsBlank(rest) || rest[0] == ' '
    ensures var head := keyword + more;
      TrimSpace(pad + (head + rest)) == head + kept && LooksLikeFrom(head + kept) && !IsSpace(head[0]) && !IsSpace(head[|head| - 1])
    ensures kept == "" || (kept[0] == ' ' && !IsSpace(kept[|kept| - 1]))
  {
    var head := keyword + more;
    KeywordIsWord(keyword);
    assert head[0] == keyword[0] && head[|head| - 1] == more[|more| - 1];
    TrimLeftDrops(pad, head + rest);
    kept := TrimRightKeeps(head, rest);
    KeptStart(rest, kept);
    assert (head + kept)[..4] == keyword;
    SameKeyword(keyword, head + kept);
  }

  lemma OtherGlued(line: string, keyword: string, text: string, kept: string)
    requires IsKeyword(keyword) && keyword != FROM && IsWord(text) && !IsSpace((keyword + text)[0])
    requires kept == "" || (kept[0] == ' ' && !IsSpace(kept[|kept| - 1]))
    requires TrimSpace(line) == (keyword + text) + kept && LooksLikeFrom((keyword + text) + kept)
    ensures PartOf(line) == Some(keyword + text)
  {
    var word := keyword + text;
    KeywordIsWord(keyword);
    Regroup(keyword, "", text, kept);
    assert "" + text == text && "" + (text + kept) == text + kept;
    OtherTrim(keyword, text + kept);
    assert word[|word| - 1] == text[|text| - 1];
    TrimAgain("", word, kept);
    assert "" + (word + kept) == word + kept;
    PartFrom(line, word + kept, word + kept);
    PartBehind(word, kept);
  }

  lemma BareKeyword(pad: string, keyword: string, blank: string)
    requires IsBlank(pad) && IsKeyword(keyword) && IsBlank(blank)
    ensures PartOf(pad + (keyword + blank)) == Some(if keyword == FROM then "" else keyword)
  {
    KeywordIsWord(keyword);
    TrimLeftDrops(pad, keyword + blank);
    var kept := TrimRightKeeps(keyword, blank);
    KeptStart(blank, kept);
    assert keyword + "" == keyword;
    var line := pad + (keyword + blank);
    if keyword == FROM {
      CapitalTrim("");
      PartFrom(line, keyword, "");
    } else {
      OtherTrim(keyword, "");
      TrimAgain("", keyword, "");
      assert "" + (keyword + "") == keyword;
      PartFrom(line, keyword, keyword);
      FirstPartOf(keyword, "");
    }
  }

  function ImagesOf(lines: seq<string>, args: Args): seq<Option<string>>
  {
    seq(|lines|, i requires 0 <= i < |lines| => ImageOf(lines[i], args))
  }

  lemma {:induction false} ImagesInOrder(lines: seq<string>, args: Args) returns (at: seq<nat>)
    ensures Picks(ImagesOf(lines, args), at, Images(lines, args))
    decreases |lines|
  {
    if lines == [] {
      at := [];
    } else {
      var last := |lines| - 1;
      at := ImagesInOrder(lines[..last], args);
      at := PicksMore(ImagesOf(lines[..last], args), at, Images(lines[..last], args), ImageOf(lines[last], args));
      ImagesOfSnoc(lines, args);
      ImagesSnoc(lines, args);
    }
  }

  lemma ImagesOfSnoc(lines: seq<string>, args: Args)
    requires lines != []
    ensures var last := |lines| - 1; ImagesOf(lines, args) == ImagesOf(lines[..last], args) + [ImageOf(lines[last], args)]
  {
  }

  lemma ImagesSnoc(lines: seq<string>, args: Args)
    requires lines != []
    ensures var image := ImageOf(lines[|lines| - 1], args);
      Images(lines, args) == Images(lines[..|lines| - 1], args) + if image.Some? then [image.value] else []
  {
  }

  /** The images are those of exactly the lines that begin with the keyword, one for each, in their order. */
  lemma ImagesAreExact(lines: seq<string>, args: Args) returns (at: seq<nat>)
    ensures Picks(ImagesOf(lines, args), at, Images(lines, args))
    ensures forall line :: ImageOf(line, args).Some? <==> BeginsWithKeyword(line)
  {
    at := ImagesInOrder(lines, args);
    forall line
      ensures ImageOf(line, args).Some? <==> BeginsWithKeyword(line)
    {
      TakenExactly(line);
    }
  }
}
