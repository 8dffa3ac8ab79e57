/** Regular expressions as far as the name checks use them: a class, and then any number of another class. */
module Patterns {

  type Ranges = seq<(char, char)>

  datatype Pattern = OneOf(ranges: Ranges) | Then(first: Pattern, second: Pattern) | Star(pattern: Pattern)

  ghost predicate InRanges(c: char, ranges: Ranges)
  {
    exists r :: r in ranges && r.0 <= c <= r.1
  }

  /** The whole text matches. */
  ghost predicate FullMatch(p: Pattern, s: string)
    decreases p, |s|
  {
    match p
    case OneOf(ranges) => |s| == 1 && InRanges(s[0], ranges)
    case Then(first, second) => exists k :: 0 <= k <= |s| && FullMatch(first, s[..k]) && FullMatch(second, s[k..])
    case Star(q) => s == "" || exists k :: 0 < k <= |s| && FullMatch(q, s[..k]) && FullMatch(p, s[k..])
  }

  lemma {:induction false} StarOfClass(ranges: Ranges, s: string)
    ensures FullMatch(Star(OneOf(ranges)), s) <==> forall i :: 0 <= i < |s| ==> InRanges(s[i], ranges)
    decreases |s|
  {
    var p := Star(OneOf(ranges));
    if s != "" {
      StarOfClass(ranges, s[1..]);
      if FullMatch(p, s) {
        var k :| 0 < k <= |s| && FullMatch(OneOf(ranges), s[..k]) && FullMatch(p, s[k..]);
        assert k == 1 && InRanges(s[0], ranges);
        assert forall i :: 0 < i < |s| ==> s[i] == s[1..][i - 1];
      }
      if forall i :: 0 <= i < |s| ==> InRanges(s[i], ranges) {
        assert FullMatch(OneOf(ranges), s[..1]) && FullMatch(p, s[1..]);
      }
    }
  }

  /** A character of one class, and then only characters of another. */
  lemma ClassThenStar(first: Ranges, rest: Ranges, s: string)
    ensures FullMatch(Then(OneOf(first), Star(OneOf(rest))), s) <==>
      s != "" && InRanges(s[0], first) && forall i :: 1 <= i < |s| ==> InRanges(s[i], rest)
  {
    var p := Then(OneOf(first), Star(OneOf(rest)));
    if FullMatch(p, s) {
      var k :| 0 <= k <= |s| && FullMatch(OneOf(first), s[..k]) && FullMatch(Star(OneOf(rest)), s[k..]);
      assert k == 1;
      StarOfClass(rest, s[1..]);
      assert forall i :: 1 <= i < |s| ==> s[i] == s[1..][i - 1];
    }
    if s != "" && InRanges(s[0], first) && forall i :: 1 <= i < |s| ==> InRanges(s[i], rest) {
      StarOfClass(rest, s[1..]);
      assert FullMatch(OneOf(first), s[..1]) && FullMatch(Star(OneOf(rest)), s[1..]);
    }
  }
}
