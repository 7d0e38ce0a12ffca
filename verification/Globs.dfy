/** The wildcard matcher of the logging header: '?' is any one character and '*' any run of them. */
module Globs {

  /** The text that one pattern character may stand for. */
  ghost predicate Fits(piece: string, c: char)
  {
    match c
    case '?' => |piece| == 1
    case '*' => true
    case _ => piece == [c]
  }

  ghost function Concat(pieces: seq<string>): string
  {
    if pieces == [] then [] else pieces[0] + Concat(pieces[1..])
  }

  ghost predicate Splits(pieces: seq<string>, s: string, pattern: string)
  {
    && |pieces| == |pattern| && Concat(pieces) == s
    && forall k :: 0 <= k < |pieces| ==> Fits(pieces[k], pattern[k])
  }

  /** `s` can be cut into one piece for each character of the pattern. */
  ghost predicate Matches(s: string, pattern: string)
  {
    exists pieces :: Splits(pieces, s, pattern)
  }

  lemma Prepend(piece: string, s: string, pattern: string)
    requires pattern != [] && Fits(piece, pattern[0]) && Matches(s, pattern[1..])
    ensures Matches(piece + s, pattern)
  {
    var pieces :| Splits(pieces, s, pattern[1..]);
    var all := [piece] + pieces;
    assert all[1..] == pieces;
    assert Splits(all, piece + s, pattern);
  }

  lemma Behead(s: string, pattern: string) returns (piece: string)
    requires pattern != [] && Matches(s, pattern)
    ensures Fits(piece, pattern[0]) && piece <= s && Matches(s[|piece|..], pattern[1..])
  {
    var pieces :| Splits(pieces, s, pattern);
    piece := pieces[0];
    assert s[|piece|..] == Concat(pieces[1..]);
    assert Splits(pieces[1..], s[|piece|..], pattern[1..]);
  }

  lemma EmptyPattern(s: string)
    ensures Matches(s, []) <==> s == []
  {
    assert s == [] ==> Splits([], s, []);
  }

  /** An ordinary character, or '?', consumes one character of the text. */
  lemma OneCharacter(s: string, pattern: string)
    requires pattern != [] && pattern[0] != '*'
    ensures Matches(s, pattern) <==>
      s != [] && (pattern[0] == '?' || s[0] == pattern[0]) && Matches(s[1..], pattern[1..])
  {
    if s != [] && (pattern[0] == '?' || s[0] == pattern[0]) && Matches(s[1..], pattern[1..]) {
      Prepend([s[0]], s[1..], pattern);
      assert s == [s[0]] + s[1..];
    }
    if Matches(s, pattern) {
      var piece := Behead(s, pattern);
      assert |piece| == 1 && piece[0] == s[0];
    }
  }

  /** A '*' stands for nothing, or takes one more character of the text. */
  lemma Star(s: string, pattern: string)
    requires pattern != [] && pattern[0] == '*'
    ensures Matches(s, pattern) <==> Matches(s, pattern[1..]) || (s != [] && Matches(s[1..], pattern))
  {
    if Matches(s, pattern) {
      var piece := Behead(s, pattern);
      if piece == [] {
        assert s[0..] == s;
      } else {
        assert s[|piece|..] == s[1..][|piece| - 1..];
        Prepend(piece[1..], s[|piece|..], pattern);
        assert piece[1..] + s[|piece|..] == s[1..];
      }
    }
    if Matches(s, pattern[1..]) {
      Prepend([], s, pattern);
      assert [] + s == s;
    }
    if s != [] && Matches(s[1..], pattern) {
      var piece := Behead(s[1..], pattern);
      Prepend([s[0]] + piece, s[1..][|piece|..], pattern);
      assert ([s[0]] + piece) + s[1..][|piece|..] == s;
    }
  }

  /** Matching is exactly the declarative relation, and it always ends. */
  method WildCardMatch(str: string, pattern: string) returns (r: bool)
    ensures r <==> Matches(str, pattern)
    decreases |pattern|, |str|
  {
    var s, p := str, pattern;
    while p != []
      invariant |p| <= |pattern| && (|p| == |pattern| ==> |s| <= |str|)
      invariant Matches(str, pattern) <==> Matches(s, p)
      decreases |p|
    {
      match p[0]
      case '?' =>
        OneCharacter(s, p);
        if s == [] {
          return false;
        }
        s, p := s[1..], p[1..];
      case '*' =>
        Star(s, p);
        var none := WildCardMatch(s, p[1..]);
        if none {
          return true;
        }
        if s != [] {
          var more := WildCardMatch(s[1..], p);
          return more;
        }
        return false;
      case _ =>
        OneCharacter(s, p);
        if s == [] || s[0] != p[0] {
          return false;
        }
        s, p := s[1..], p[1..];
    }
    EmptyPattern(s);
    return s == [];
  }
}
