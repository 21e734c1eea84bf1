/** Splitting a document into chunks: a cut before the last separator of each window, or at its full width. */
module Chunking {
  import opened Text

  predicate Separator(c: char) {
    c == '.' || c == '\n' || c == ' '
  }

  /** The last separator of a window, or -1. */
  function LastSeparator(w: string): (r: int)
    ensures -1 <= r < |w|
    ensures r >= 0 ==> Separator(w[r])
    ensures forall j :: r < j < |w| ==> !Separator(w[j])
  {
    if w == "" then -1
    else if Separator(w[|w| - 1]) then |w| - 1
    else LastSeparator(w[..|w| - 1])
  }

  /** Where the next piece of `t` ends, when `t` does not fit into one. */
  function CutOf(t: string, size: nat): (n: nat)
    requires 1 <= size < |t|
    ensures 1 <= n <= size
    ensures n < size ==> Separator(t[n]) && forall j :: n < j < size ==> !Separator(t[j])
    ensures n == size ==> forall j :: 0 < j < size ==> !Separator(t[j])
  {
    var r := LastSeparator(t[..size]);
    assert forall j :: 0 <= j < size ==> t[..size][j] == t[j];
    if r <= 0 then size else r
  }

  /** The pieces of a text before each is trimmed. */
  function Pieces(t: string, size: nat): seq<string>
    requires size >= 1
  {
    if t == "" then []
    else if |t| <= size then [t]
    else [t[..CutOf(t, size)]] + Pieces(t[CutOf(t, size)..], size)
  }

  function TrimAll(pieces: seq<string>): (r: seq<string>)
    ensures |r| == |pieces| && forall i :: 0 <= i < |r| ==> r[i] == Trim(pieces[i])
  {
    seq(|pieces|, i requires 0 <= i < |pieces| => Trim(pieces[i]))
  }

  /** What the splitter returns. */
  function Chunks(text: string, size: nat): seq<string>
    requires size >= 1
  {
    TrimAll(Pieces(Trim(text), size))
  }

  lemma ChunksOf(text: string, size: nat)
    requires size >= 1
    ensures Chunks(text, size) == TrimAll(Pieces(Trim(text), size))
  {
  }

  lemma TrimAllSnoc(pieces: seq<string>, p: string)
    ensures TrimAll(pieces + [p]) == TrimAll(pieces) + [Trim(p)]
  {
    hide Trim;
  }

  lemma PieceCount(t: string, size: nat)
    requires size >= 1 && |t| <= size
    ensures |Pieces(t, size)| == if t == "" then 0 else 1
  {
  }

  lemma LastPieces(t: string, size: nat, start: nat)
    requires size >= 1 && start < |t| <= start + size
    ensures Pieces(t[start..], size) == [t[start..]]
  {
  }

  /** One turn of the loop moves a piece from the rest to those done. */
  lemma MovePiece(t: string, size: nat, start: nat, done: seq<string>)
    requires size >= 1 && start + size < |t|
    ensures var end := start + CutOf(t[start..], size);
            start < end < |t| && done + Pieces(t[start..], size) == done + [t[start..end]] + Pieces(t[end..], size)
  {
    hide CutOf;
    var rest := t[start..];
    var n := CutOf(rest, size);
    assert rest[..n] == t[start..start + n] && rest[n..] == t[start + n..];
    assert done + ([rest[..n]] + Pieces(rest[n..], size)) == done + [rest[..n]] + Pieces(rest[n..], size);
  }

  /** The loop over the start of the next piece. Callers only pass positive sizes. */
  method SplitChunks(text: string, size: nat) returns (chunks: seq<string>)
    requires size >= 1
    ensures chunks == Chunks(text, size)
  {
    hide *;
    var t := Trim(text);
    ChunksOf(text, size);
    assert TrimAll([]) == [];
    if t == "" {
      PieceCount(t, size);
      return [];
    }
    assert t[0..] == t;
    if |t| <= size {
      LastPieces(t, size, 0);
      TrimAllSnoc([], t);
      TrimTwice(text);
      assert [] + [t] == [t];
      return [t];
    }
    chunks := [];
    var start := 0;
    ghost var done: seq<string> := [];
    while start < |t|
      invariant 0 <= start < |t|
      invariant chunks == TrimAll(done)
      invariant done + Pieces(t[start..], size) == Pieces(t, size)
      decreases |t| - start
    {
      if start + size >= |t| {
        LastPieces(t, size, start);
        TrimAllSnoc(done, t[start..]);
        chunks := chunks + [Trim(t[start..])];
        break;
      }
      var end := start + CutOf(t[start..], size);
      MovePiece(t, size, start, done);
      TrimAllSnoc(done, t[start..end]);
      chunks := chunks + [Trim(t[start..end])];
      done := done + [t[start..end]];
      start := end;
    }
  }

  lemma TrimTwice(s: string)
    ensures Trim(Trim(s)) == Trim(s)
  {
    var l := TrimLeft(s);
    var r := TrimRight(l);
    if r != [] {
      assert r[0] == l[0];
    }
  }

  // ----- What the pieces are

  function Flatten(pieces: seq<string>): string {
    if pieces == [] then "" else pieces[0] + Flatten(pieces[1..])
  }

  /** Nothing of the text is lost or repeated. */
  lemma {:induction false} PiecesAreLossless(t: string, size: nat)
    requires size >= 1
    ensures Flatten(Pieces(t, size)) == t
    decreases |t|
  {
    if |t| > size {
      PiecesAreLossless(t[CutOf(t, size)..], size);
      assert Pieces(t, size)[1..] == Pieces(t[CutOf(t, size)..], size);
    } else if t != "" {
      assert [t][1..] == [];
    }
  }

  /** Where piece `i` starts. */
  function StartOf(pieces: seq<string>, i: nat): nat
    requires i <= |pieces|
  {
    if i == 0 then 0 else |pieces[0]| + StartOf(pieces[1..], i - 1)
  }

  /** Every piece but the last ends just before a separator with none after it in the window, or at full
      width where the window has no separator past its first character. */
  ghost predicate WellCut(t: string, size: nat, start: nat, piece: string) {
    && start + size < |t| && 1 <= |piece| <= size
    && piece == t[start..start + |piece|]
    && (forall j :: start + |piece| < j < start + size ==> !Separator(t[j]))
    && (if |piece| < size then Separator(t[start + |piece|])
        else forall j :: start < j < start + size ==> !Separator(t[j]))
  }

  ghost predicate LastPiece(t: string, size: nat, start: nat, piece: string) {
    start <= |t| && piece == t[start..] && 1 <= |piece| <= size
  }

  /** The pieces after the first are those of the rest. */
  lemma PiecesStep(t: string, size: nat)
    requires 1 <= size < |t|
    ensures var n := CutOf(t, size);
            var ps := Pieces(t, size);
            && |ps| >= 2 && ps[0] == t[..n] && ps[1..] == Pieces(t[n..], size)
            && forall i :: 0 < i < |ps| ==> ps[i] == Pieces(t[n..], size)[i - 1]
  {
    hide CutOf, LastSeparator;
    var n := CutOf(t, size);
    assert t[n..] != "";
  }

  lemma FirstIsWellCut(t: string, size: nat)
    requires 1 <= size < |t|
    ensures PieceAt(t, size, 0, t[..CutOf(t, size)], false)
  {
    hide LastSeparator;
  }

  ghost predicate PieceAt(t: string, size: nat, start: nat, piece: string, last: bool) {
    if last then LastPiece(t, size, start, piece) else WellCut(t, size, start, piece)
  }

  lemma {:induction false} PiecesAreWellCut(t: string, size: nat, i: nat)
    requires size >= 1 && i < |Pieces(t, size)|
    ensures PieceAt(t, size, StartOf(Pieces(t, size), i), Pieces(t, size)[i], i == |Pieces(t, size)| - 1)
    decreases |t|
  {
    hide *;
    StartOfStep(Pieces(t, size), i);
    if |t| <= size {
      OnlyPiece(t, size);
    } else {
      PiecesStep(t, size);
      var n := CutOf(t, size);
      CutLengths(t, size);
      if i == 0 {
        FirstIsWellCut(t, size);
      } else {
        PiecesAreWellCut(t[n..], size, i - 1);
        ShiftedCut(t, n, size, StartOf(Pieces(t[n..], size), i - 1), Pieces(t, size)[i], i == |Pieces(t, size)| - 1);
      }
    }
  }

  lemma OnlyPiece(t: string, size: nat)
    requires size >= 1 && |t| <= size
    ensures |Pieces(t, size)| <= 1
    ensures t != "" ==> Pieces(t, size) == [t] && PieceAt(t, size, 0, t, true)
    ensures t == "" ==> Pieces(t, size) == []
  {
  }

  lemma StartOfStep(pieces: seq<string>, i: nat)
    requires i < |pieces|
    ensures StartOf(pieces, 0) == 0
    ensures i > 0 ==> StartOf(pieces, i) == |pieces[0]| + StartOf(pieces[1..], i - 1)
  {
  }

  lemma ShiftedCut(t: string, n: nat, size: nat, start: nat, piece: string, last: bool)
    requires n <= |t|
    ensures PieceAt(t[n..], size, start, piece, last) ==> PieceAt(t, size, n + start, piece, last)
  {
    var rest := t[n..];
    assert forall j :: 0 <= j < |rest| ==> rest[j] == t[n + j];
    if WellCut(rest, size, start, piece) {
      forall j | n + start + |piece| < j < n + start + size ensures !Separator(t[j]) {
        assert rest[j - n] == t[j];
      }
      if |piece| == size {
        forall j | n + start < j < n + start + size ensures !Separator(t[j]) {
          assert rest[j - n] == t[j];
        }
      }
    }
  }

  /** A short piece is followed by a long one: two neighbours, the last piece aside, fill a window. */
  lemma {:induction false} NeighboursFillAWindow(t: string, size: nat, i: nat)
    requires size >= 1 && i + 2 < |Pieces(t, size)|
    ensures |Pieces(t, size)[i]| + |Pieces(t, size)[i + 1]| >= size
    decreases |t|
  {
    hide *;
    EnoughPieces(t, size);
    PiecesStep(t, size);
    if i > 0 {
      NeighboursFillAWindow(t[CutOf(t, size)..], size, i - 1);
    } else {
      EnoughPieces(t[CutOf(t, size)..], size);
      PiecesStep(t[CutOf(t, size)..], size);
      SecondIsLong(t, size);
      CutLengths(t, size);
      CutLengths(t[CutOf(t, size)..], size);
    }
  }

  lemma CutLengths(t: string, size: nat)
    requires 1 <= size < |t|
    ensures |t[..CutOf(t, size)]| == CutOf(t, size)
  {
  }

  lemma EnoughPieces(t: string, size: nat)
    requires size >= 1
    ensures |Pieces(t, size)| > 1 ==> |t| > size
  {
    hide CutOf;
  }

  lemma SecondIsLong(t: string, size: nat)
    requires 1 <= size < |t| && |t| - CutOf(t, size) > size
    ensures CutOf(t, size) + CutOf(t[CutOf(t, size)..], size) >= size
  {
    hide CutOf, LastSeparator;
    var n := CutOf(t, size);
    var rest := t[n..];
    assert forall j :: 0 < j < size - n ==> rest[j] == t[n + j];
  }

  /** So the number of pieces is bounded by the text, however its separators lie. */
  lemma {:induction false} FewPieces(t: string, size: nat)
    requires size >= 1 && t != ""
    ensures (|Pieces(t, size)| - 1) / 2 * size < |t|
    decreases |t|
  {
    hide *;
    if |t| <= size {
      PieceCount(t, size);
    } else {
      PiecesStep(t, size);
      var rest := t[CutOf(t, size)..];
      if |rest| <= size {
        PieceCount(rest, size);
      } else {
        PiecesStep(rest, size);
        var last := rest[CutOf(rest, size)..];
        SecondIsLong(t, size);
        FewPieces(last, size);
        HalfStep(|Pieces(last, size)|, size);
      }
    }
  }

  lemma HalfStep(count: nat, size: nat)
    requires count >= 1
    ensures (count + 2 - 1) / 2 * size == (count - 1) / 2 * size + size
  {
    assert (count + 2 - 1) / 2 == (count - 1) / 2 + 1;
  }

  // ----- What trimming makes of them

  lemma {:induction false} BlankExactly(s: string)
    ensures Trim(s) == "" <==> forall i :: 0 <= i < |s| ==> IsSpace(s[i])
  {
    TrimLeftBlank(s);
    var l := TrimLeft(s);
    if l != "" {
      var r := TrimRight(l);
      if r == "" {
        TrimRightBlank(l);
      }
    }
  }

  lemma {:induction false} TrimLeftBlank(s: string)
    ensures TrimLeft(s) == "" <==> forall i :: 0 <= i < |s| ==> IsSpace(s[i])
  {
    hide IsSpace;
    if s != "" && IsSpace(s[0]) {
      TrimLeftBlank(s[1..]);
      forall i | 0 < i < |s| ensures s[i] == s[1..][i - 1] {
      }
    } else if s != "" {
      assert TrimLeft(s) == s;
    }
  }

  lemma {:induction false} TrimRightBlank(s: string)
    requires TrimRight(s) == ""
    ensures forall i :: 0 <= i < |s| ==> IsSpace(s[i])
  {
    hide IsSpace;
    if s != "" {
      TrimRightBlank(s[..|s| - 1]);
      assert forall i :: 0 <= i < |s| - 1 ==> s[i] == s[..|s| - 1][i];
    }
  }

  /** A chunk is empty exactly when its piece was all white space. */
  lemma EmptyChunks(text: string, size: nat, i: nat)
    requires size >= 1 && i < |Pieces(Trim(text), size)|
    ensures Chunks(text, size)[i] == "" <==> AllSpace(Pieces(Trim(text), size)[i])
  {
    hide Trim, Pieces;
    BlankExactly(Pieces(Trim(text), size)[i]);
  }

  predicate AllSpace(s: string) {
    forall j :: 0 <= j < |s| ==> IsSpace(s[j])
  }

  lemma TrimmedEnds(s: string)
    requires Trim(s) != ""
    ensures !IsSpace(Trim(s)[0]) && !IsSpace(Trim(s)[|Trim(s)| - 1])
  {
    hide TrimLeft, TrimRight, IsSpace;
    assert Trim(s) == TrimLeft(s)[..|Trim(s)|];
  }

  /** White space at `i` with white space or a separator right behind it, not at the end of the text. */
  predicate Gap(t: string, i: nat) {
    i + 2 < |t| && IsSpace(t[i]) && (IsSpace(t[i + 1]) || Separator(t[i + 1]))
  }

  /** A blank piece, for any size but 1, takes a gap in the text. */
  lemma BlankPieceTakesGap(t: string, size: nat, i: nat)
    requires size >= 2 && i < |Pieces(t, size)| && AllSpace(Pieces(t, size)[i])
    requires t != "" && !IsSpace(t[|t| - 1])
    ensures Gap(t, StartOf(Pieces(t, size), i))
  {
    hide Pieces, StartOf, IsSpace, Separator;
    PiecesAreWellCut(t, size, i);
    var start, piece := StartOf(Pieces(t, size), i), Pieces(t, size)[i];
    assert IsSpace(piece[0]);
    LastPieceEnds(t, size, start, piece);
    assert |piece| >= 2 ==> IsSpace(piece[1]);
  }

  lemma LastPieceEnds(t: string, size: nat, start: nat, piece: string)
    ensures LastPiece(t, size, start, piece) && t != "" && !IsSpace(t[|t| - 1]) ==> !AllSpace(piece)
  {
    hide IsSpace;
    if LastPiece(t, size, start, piece) && t != "" {
      assert piece[|piece| - 1] == t[|t| - 1];
    }
  }

  /** Without gaps no chunk is empty, for any size but 1. */
  lemma NoEmptyChunks(text: string, size: nat)
    requires size >= 2 && forall i :: !Gap(Trim(text), i)
    ensures "" !in Chunks(text, size)
  {
    hide Trim, Pieces, Gap, AllSpace;
    forall i | 0 <= i < |Chunks(text, size)| ensures Chunks(text, size)[i] != "" {
      EmptyChunks(text, size, i);
      NoBlankPiece(text, size, i);
    }
  }

  lemma NoBlankPiece(text: string, size: nat, i: nat)
    requires size >= 2 && i < |Pieces(Trim(text), size)| && forall j :: !Gap(Trim(text), j)
    ensures !AllSpace(Pieces(Trim(text), size)[i])
  {
    hide Trim, Gap, AllSpace, CutOf;
    var t := Trim(text);
    assert t != "";
    TrimmedEnds(text);
    if AllSpace(Pieces(t, size)[i]) {
      BlankPieceTakesGap(t, size, i);
    }
  }

  /** With size 2, a separator that is followed by another one always makes up a piece. */
  lemma {:induction false} PieceBetweenSeparators(t: string, i: nat) returns (k: nat)
    requires i + 2 < |t| && Separator(t[i]) && Separator(t[i + 1])
    ensures k < |Pieces(t, 2)| && Pieces(t, 2)[k] == [t[i]]
    decreases |t|
  {
    hide Pieces, CutOf, Separator;
    var n := CutOf(t, 2);
    PiecesStep(t, 2);
    if i == 0 {
      assert n == 1;
      assert t[..1] == [t[0]];
      k := 0;
    } else {
      assert n <= i;
      var rest := t[n..];
      assert rest[i - n] == t[i] && rest[i - n + 1] == t[i + 1];
      k := PieceBetweenSeparators(rest, i - n);
      k := k + 1;
    }
  }

  /** The exact condition, for texts whose white space is made of blanks and line feeds: every size but 1
      gives chunks that are not empty exactly when no white space is followed by a separator before the last
      character. */
  lemma EmptyChunksExactly(text: string)
    requires forall i :: 0 <= i < |Trim(text)| && IsSpace(Trim(text)[i]) ==> Separator(Trim(text)[i])
    ensures (forall size: nat :: size >= 2 ==> "" !in Chunks(text, size))
        <==> (forall i: nat :: i + 2 < |Trim(text)| && IsSpace(Trim(text)[i]) ==> !Separator(Trim(text)[i + 1]))
  {
    hide Trim, Chunks, Separator, IsSpace;
    var t := Trim(text);
    if forall i: nat :: i + 2 < |t| && IsSpace(t[i]) ==> !Separator(t[i + 1]) {
      forall size: nat | size >= 2 ensures "" !in Chunks(text, size) {
        NoEmptyChunks(text, size);
      }
    } else {
      var i: nat :| i + 2 < |t| && IsSpace(t[i]) && Separator(t[i + 1]);
      EmptyAtTwo(text, i);
    }
  }

  lemma EmptyAtTwo(text: string, i: nat)
    requires i + 2 < |Trim(text)| && IsSpace(Trim(text)[i])
    requires Separator(Trim(text)[i]) && Separator(Trim(text)[i + 1])
    ensures "" in Chunks(text, 2)
  {
    hide Trim, Pieces, Separator, IsSpace;
    var k := PieceBetweenSeparators(Trim(text), i);
    EmptyChunks(text, 2, k);
    assert Chunks(text, 2)[k] == "";
  }

  lemma {:induction false} PiecesOfOne(t: string)
    ensures |Pieces(t, 1)| == |t| && forall i :: 0 <= i < |t| ==> Pieces(t, 1)[i] == [t[i]]
    decreases |t|
  {
    hide CutOf;
    if |t| > 1 {
      PiecesStep(t, 1);
      PiecesOfOne(t[1..]);
      assert t[..1] == [t[0]];
      forall i | 0 < i < |t| ensures Pieces(t, 1)[i] == [t[i]] {
        assert Pieces(t[1..], 1)[i - 1] == [t[1..][i - 1]];
      }
    }
  }

  /** With size 1 chunks are empty exactly for the white space inside the text. */
  lemma EmptyChunksOfOne(text: string)
    ensures "" !in Chunks(text, 1) <==> forall i :: 0 <= i < |Trim(text)| ==> !IsSpace(Trim(text)[i])
  {
    hide Trim, Pieces, IsSpace;
    var t := Trim(text);
    PiecesOfOne(t);
    forall i | 0 <= i < |t| ensures Chunks(text, 1)[i] == "" <==> IsSpace(t[i]) {
      EmptyChunks(text, 1, i);
      assert Pieces(t, 1)[i][0] == t[i];
    }
    assert |Chunks(text, 1)| == |t|;
  }

  /** The splitter does return empty chunks. */
  lemma EmptyChunksHappen()
    ensures |Chunks("abc  defgh", 4)| > 1 && Chunks("abc  defgh", 4)[1] == ""
  {
    hide *;
    var t := "abc  defgh";
    SeparatorOrNot();
    CutIs(t, 4, 3);
    PiecesStep(t, 4);
    var rest := t[3..];
    assert rest == "  defgh";
    CutIs(rest, 4, 1);
    PiecesStep(rest, 4);
    assert rest[..1] == " ";
    AlreadyTrimmed(t);
    EmptyChunks(t, 4, 1);
    ChunkCount(t, 4);
    OneBlank(" ");
  }

  lemma AlreadyTrimmed(s: string)
    requires s != "" && s[0] == 'a' && s[|s| - 1] == 'h'
    ensures Trim(s) == s
  {
    assert TrimLeft(s) == s && TrimRight(s) == s;
  }

  lemma OneBlank(s: string)
    requires s == " "
    ensures AllSpace(s)
  {
  }

  lemma ChunkCount(text: string, size: nat)
    requires size >= 1
    ensures |Chunks(text, size)| == |Pieces(Trim(text), size)|
  {
  }

  lemma SeparatorOrNot()
    ensures Separator(' ') && !Separator('d') && !Separator('e')
  {
  }

  lemma CutIs(t: string, size: nat, n: nat)
    requires 1 <= n < size < |t|
    requires Separator(t[n]) && forall j :: n < j < size ==> !Separator(t[j])
    ensures CutOf(t, size) == n
  {
    hide CutOf, LastSeparator;
  }
}
