/** ASCII text helpers: case folding and trimming as the router and its policies use them. */
module Text {

  function LowerChar(c: char): char {
    if 'A' <= c <= 'Z' then ((c as int) + 32) as char else c
  }

  function Lower(s: string): (r: string)
    ensures |r| == |s|
    ensures forall i :: 0 <= i < |s| ==> r[i] == LowerChar(s[i])
  {
    seq(|s|, i requires 0 <= i < |s| => LowerChar(s[i]))
  }

  lemma LowerTwice(s: string)
    ensures Lower(Lower(s)) == Lower(s)
  {
    assert forall i :: 0 <= i < |s| ==> LowerChar(LowerChar(s[i])) == LowerChar(s[i]);
  }

  /** Folding leaves no capital letter, and changes nothing else; the letters keep their order. */
  lemma LowerFolds(s: string, i: nat)
    requires i < |s|
    ensures !('A' <= Lower(s)[i] <= 'Z')
    ensures !('A' <= s[i] <= 'Z') ==> Lower(s)[i] == s[i]
    ensures 'A' <= s[i] <= 'Z' ==> 'a' <= Lower(s)[i] && Lower(s)[i] - 'a' == s[i] - 'A'
  {
  }

  predicate EqualFold(a: string, b: string) {
    Lower(a) == Lower(b)
  }

  predicate IsSpace(c: char) {
    c == ' ' || '\t' <= c <= '\r'
  }

  function TrimLeft(s: string): (r: string)
    ensures |r| <= |s| && r == s[|s| - |r|..]
    ensures r != [] ==> !IsSpace(r[0])
  {
    if s != [] && IsSpace(s[0]) then TrimLeft(s[1..]) else s
  }

  function TrimRight(s: string): (r: string)
    ensures |r| <= |s| && r == s[..|r|]
    ensures r != [] ==> !IsSpace(r[|r| - 1])
  {
    if s != [] && IsSpace(s[|s| - 1]) then TrimRight(s[..|s| - 1]) else s
  }

  function Trim(s: string): string {
    TrimRight(TrimLeft(s))
  }

  /** A trimmed text neither starts nor ends with a blank, a tab, a line break or a form feed, and what is
      trimmed off is nothing else. */
  lemma TrimmedOff(s: string)
    ensures var space := {' ', '\t', '\n', '\U{0B}', '\U{0C}', '\r'};
            var left := |s| - |TrimLeft(s)|;
            && left + |Trim(s)| <= |s| && Trim(s) == s[left..left + |Trim(s)|]
            && (forall i :: 0 <= i < left || left + |Trim(s)| <= i < |s| ==> s[i] in space)
            && (Trim(s) != "" ==> Trim(s)[0] !in space && Trim(s)[|Trim(s)| - 1] !in space)
  {
    SpaceIs();
    hide *;
    TrimmedSpace(s);
  }

  lemma TrimmedSpace(s: string)
    ensures var left := |s| - |TrimLeft(s)|;
            && left >= 0 && left + |Trim(s)| <= |s| && Trim(s) == s[left..left + |Trim(s)|]
            && (forall i :: 0 <= i < left || left + |Trim(s)| <= i < |s| ==> IsSpace(s[i]))
            && (Trim(s) != "" ==> !IsSpace(Trim(s)[0]) && !IsSpace(Trim(s)[|Trim(s)| - 1]))
  {
    hide IsSpace, TrimLeft, TrimRight;
    var left := |s| - |TrimLeft(s)|;
    LeftIsSpace(s);
    RightIsSpace(TrimLeft(s));
    forall i | left + |Trim(s)| <= i < |s| ensures IsSpace(s[i]) {
      assert TrimLeft(s)[i - left] == s[i];
    }
  }

  lemma SpaceIs()
    ensures forall c :: IsSpace(c) <==> c in {' ', '\t', '\n', '\U{0B}', '\U{0C}', '\r'}
  {
  }

  lemma {:induction false} LeftIsSpace(s: string)
    ensures forall i :: 0 <= i < |s| - |TrimLeft(s)| ==> IsSpace(s[i])
  {
    hide IsSpace;
    if s != [] && IsSpace(s[0]) {
      LeftIsSpace(s[1..]);
      assert forall i :: 0 < i < |s| ==> s[i] == s[1..][i - 1];
    }
  }

  lemma {:induction false} RightIsSpace(s: string)
    ensures forall i :: |TrimRight(s)| <= i < |s| ==> IsSpace(s[i])
  {
    hide IsSpace;
    if s != [] && IsSpace(s[|s| - 1]) {
      RightIsSpace(s[..|s| - 1]);
    }
  }

  predicate Blank(s: string) {
    Trim(s) == ""
  }

  lemma {:induction false} TrimOfLower(s: string)
    ensures Trim(Lower(s)) == Lower(Trim(s))
  {
    TrimLeftOfLower(s);
    TrimRightOfLower(TrimLeft(s));
  }

  lemma {:induction false} TrimLeftOfLower(s: string)
    ensures TrimLeft(Lower(s)) == Lower(TrimLeft(s))
  {
    if s != [] {
      assert Lower(s)[1..] == Lower(s[1..]);
      TrimLeftOfLower(s[1..]);
    }
  }

  lemma {:induction false} TrimRightOfLower(s: string)
    ensures TrimRight(Lower(s)) == Lower(TrimRight(s))
  {
    if s != [] {
      assert Lower(s)[..|s| - 1] == Lower(s[..|s| - 1]);
      TrimRightOfLower(s[..|s| - 1]);
    }
  }
}
