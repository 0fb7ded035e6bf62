/** Cleaning a document's text and cutting it into index chunks. */
module Chunks {
  import opened Sequences
  import opened Text
  import opened Wrappers

  const MAX_CONTENT := 1000000
  const MAX_CHUNK := 800

  datatype TextError = NoText | TextTooLong

  function WithoutNul(s: string): string {
    if s == [] then [] else (if s[0] == '\0' then [] else [s[0]]) + WithoutNul(s[1..])
  }

  function CleanContent(content: string): Result<string, TextError> {
    var cleaned := Strip(WithoutNul(content));
    if cleaned == [] then Err(NoText) else if |cleaned| > MAX_CONTENT then Err(TextTooLong) else Ok(cleaned)
  }

  /** What every stored text satisfies. */
  predicate Cleaned(s: string) {
    s != [] && Stripped(s) && |s| <= MAX_CONTENT
  }

  lemma CleanContentIsCleaned(content: string)
    requires CleanContent(content).Ok?
    ensures Cleaned(CleanContent(content).value)
  {
    StripIsStripped(WithoutNul(content));
  }

  // ---- Paragraphs: splitting at the pattern \n\s*\n ----

  /** Where the white space that starts at i ends. */
  function SpaceEnd(s: string, i: nat): (e: nat)
    requires i <= |s|
    ensures i <= e <= |s|
    ensures forall k :: i <= k < e ==> IsSpace(s[k])
    ensures e < |s| ==> !IsSpace(s[e])
    decreases |s| - i
  {
    if i < |s| && IsSpace(s[i]) then SpaceEnd(s, i + 1) else i
  }

  /** The last newline in s[lo..hi], as one past its index, or lo when there is none. */
  function AfterLastNewline(s: string, lo: nat, hi: nat): (e: nat)
    requires lo <= hi <= |s|
    ensures lo <= e <= hi
    ensures e > lo ==> s[e - 1] == '\n'
    ensures forall k :: e <= k < hi ==> s[k] != '\n'
    decreases hi
  {
    if hi == lo || s[hi - 1] == '\n' then hi else AfterLastNewline(s, lo, hi - 1)
  }

  /** The end of the longest match that starts at i; i itself when nothing matches there. */
  function BreakEnd(s: string, i: nat): (e: nat)
    requires i < |s|
    ensures e == i || i + 1 < e <= |s|
    ensures forall k :: i <= k < e ==> IsSpace(s[k])
  {
    if s[i] != '\n' then i
    else
      var e := AfterLastNewline(s, i + 1, SpaceEnd(s, i + 1));
      if e == i + 1 then i else e
  }

  /** The first index from i on where the pattern matches, or |s|. */
  function FirstBreak(s: string, i: nat): (b: nat)
    requires i <= |s|
    ensures i <= b <= |s|
    ensures b < |s| ==> BreakEnd(s, b) > b
    ensures forall k :: i <= k < b ==> BreakEnd(s, k) == k
    decreases |s| - i
  {
    if i == |s| || BreakEnd(s, i) > i then i else FirstBreak(s, i + 1)
  }

  function Split(s: string): seq<string>
    decreases |s|
  {
    var b := FirstBreak(s, 0);
    if b == |s| then [s] else [s[..b]] + Split(s[BreakEnd(s, b)..])
  }

  // ---- The split is at blank lines, and at every one of them ----

  /** White space that runs from a newline to another. */
  predicate IsBreak(t: string) {
    && |t| >= 2 && t[0] == '\n' && t[|t| - 1] == '\n'
    && forall k :: 0 <= k < |t| ==> IsSpace(t[k])
  }

  ghost predicate SplitAtBreaks(s: string, parts: seq<string>)
    decreases |parts|
  {
    && parts != []
    && (if |parts| == 1 then parts[0] == s
        else exists e :: && |parts[0]| <= e <= |s| && s[..|parts[0]|] == parts[0]
                         && IsBreak(s[|parts[0]|..e]) && SplitAtBreaks(s[e..], parts[1..]))
  }

  ghost predicate HasBreak(s: string) {
    exists i, j :: 0 <= i < j <= |s| && IsBreak(s[i..j])
  }

  lemma {:induction false} SplitIsAtBreaks(s: string)
    ensures SplitAtBreaks(s, Split(s))
    decreases |s|
  {
    var b := FirstBreak(s, 0);
    if b < |s| {
      var e := BreakEnd(s, b);
      var parts := [s[..b]] + Split(s[e..]);
      SplitIsAtBreaks(s[e..]);
      assert IsBreak(s[b..e]);
      assert parts[0] == s[..b] && parts[1..] == Split(s[e..]);
    }
  }

  lemma BreakMatches(s: string, i: nat, j: nat)
    requires i < j <= |s| && IsBreak(s[i..j])
    ensures BreakEnd(s, i) >= j
  {
    assert forall k :: i <= k < j ==> s[k] == s[i..j][k - i];
    assert SpaceEnd(s, i + 1) >= j;
    assert s[j - 1] == '\n';
  }

  lemma {:induction false} PartsHaveNoBreak(s: string)
    ensures forall part :: part in Split(s) ==> !HasBreak(part)
    decreases |s|
  {
    var b := FirstBreak(s, 0);
    if i, j :| 0 <= i < j <= b && IsBreak(s[..b][i..j]) {
      assert s[..b][i..j] == s[i..j];
      BreakMatches(s, i, j);
    }
    if b == |s| {
      assert s[..b] == s;
    } else {
      PartsHaveNoBreak(s[BreakEnd(s, b)..]);
    }
  }

  /** The parts that are not blank, stripped. */
  function NonBlank(parts: seq<string>): seq<string> {
    if parts == [] then []
    else (if Strip(parts[0]) == [] then [] else [Strip(parts[0])]) + NonBlank(parts[1..])
  }

  function Paragraphs(s: string): seq<string> {
    NonBlank(Split(s))
  }

  function Concat(parts: seq<string>): string {
    if parts == [] then [] else parts[0] + Concat(parts[1..])
  }

  lemma {:induction false} ConcatAppend(a: seq<string>, b: seq<string>)
    ensures Concat(a + b) == Concat(a) + Concat(b)
  {
    if a == [] {
      assert a + b == b;
    } else {
      ConcatAppend(a[1..], b);
      assert (a + b)[1..] == a[1..] + b;
    }
  }

  lemma {:induction false} SpaceIsInvisible(s: string)
    requires forall k :: 0 <= k < |s| ==> IsSpace(s[k])
    ensures Visible(s) == []
  {
    if s != [] { SpaceIsInvisible(s[1..]); }
  }

  lemma SpaceBetween(a: string, space: string, c: string)
    requires forall k :: 0 <= k < |space| ==> IsSpace(space[k])
    ensures Visible(a + space + c) == Visible(a) + Visible(c)
  {
    SpaceIsInvisible(space);
    VisibleConcat(a, space);
    assert Visible(a + space) == Visible(a);
    VisibleConcat(a + space, c);
  }

  lemma DroppingSpace(s: string, b: nat, e: nat)
    requires b <= e <= |s| && forall k :: b <= k < e ==> IsSpace(s[k])
    ensures Visible(s) == Visible(s[..b]) + Visible(s[e..])
  {
    ThreeSlices(s, b, e);
    SpaceBetween(s[..b], s[b..e], s[e..]);
  }

  lemma {:induction false} SplitKeepsVisible(s: string)
    ensures Visible(Concat(Split(s))) == Visible(s)
    decreases |s|
  {
    var b := FirstBreak(s, 0);
    if b == |s| {
      assert Concat([s]) == s + Concat([]) == s;
    } else {
      var e := BreakEnd(s, b);
      var rest := Split(s[e..]);
      SplitKeepsVisible(s[e..]);
      DroppingSpace(s, b, e);
      VisibleConcat(s[..b], Concat(rest));
      assert Split(s) == [s[..b]] + rest;
      assert Concat([s[..b]] + rest) == s[..b] + Concat(rest);
    }
  }

  lemma {:induction false} NonBlankKeepsVisible(parts: seq<string>)
    ensures Visible(Concat(NonBlank(parts))) == Visible(Concat(parts))
    ensures forall p :: p in NonBlank(parts) ==> p != [] && Stripped(p)
  {
    if parts != [] {
      var p := Strip(parts[0]);
      NonBlankKeepsVisible(parts[1..]);
      VisibleStrip(parts[0]);
      StripIsStripped(parts[0]);
      VisibleConcat(parts[0], Concat(parts[1..]));
      VisibleConcat(p, Concat(NonBlank(parts[1..])));
      ConcatAppend(if p == [] then [] else [p], NonBlank(parts[1..]));
      assert Concat([p]) == p + Concat([]) == p;
    }
  }

  /** Paragraphs are stripped, hold every visible character in order, and exist exactly
      when there is one. */
  lemma ParagraphsKeepVisible(s: string)
    ensures Visible(Concat(Paragraphs(s))) == Visible(s)
    ensures forall p :: p in Paragraphs(s) ==> p != [] && Stripped(p)
    ensures Paragraphs(s) == [] <==> Visible(s) == []
  {
    SplitKeepsVisible(s);
    NonBlankKeepsVisible(Split(s));
    if Paragraphs(s) != [] {
      var p := Paragraphs(s)[0];
      assert p in Paragraphs(s);
      VisibleHead(p);
      VisibleConcat(p, Concat(Paragraphs(s)[1..]));
    }
  }

  lemma {:induction false} StripIsPartOf(s: string) returns (lo: nat, hi: nat)
    ensures lo <= hi <= |s| && Strip(s) == s[lo..hi]
  {
    lo := StripLeftIsSuffix(s);
    var t := StripLeft(s);
    StripRightEnds(t);
    hi := lo + |StripRight(t)|;
    assert StripRight(t) == t[..|StripRight(t)|];
  }

  lemma {:induction false} StripLeftIsSuffix(s: string) returns (lo: nat)
    ensures lo <= |s| && StripLeft(s) == s[lo..]
  {
    if s != [] && IsSpace(s[0]) {
      var l := StripLeftIsSuffix(s[1..]);
      lo := l + 1;
    } else {
      lo := 0;
    }
  }

  lemma PartOfHasNoBreak(s: string, lo: nat, hi: nat)
    requires lo <= hi <= |s| && !HasBreak(s)
    ensures !HasBreak(s[lo..hi])
  {
    if i, j :| 0 <= i < j <= hi - lo && IsBreak(s[lo..hi][i..j]) {
      SliceOfSlice(s, lo, hi, i, j);
    }
  }

  lemma {:induction false} NonBlankHasNoBreak(parts: seq<string>)
    requires forall part :: part in parts ==> !HasBreak(part)
    ensures forall p :: p in NonBlank(parts) ==> !HasBreak(p)
  {
    if parts != [] {
      NonBlankHasNoBreak(parts[1..]);
      var lo, hi := StripIsPartOf(parts[0]);
      assert parts[0] in parts;
      PartOfHasNoBreak(parts[0], lo, hi);
    }
  }

  /** No blank line is left inside a paragraph. */
  lemma ParagraphsHaveNoBreak(s: string)
    ensures forall p :: p in Paragraphs(s) ==> !HasBreak(p)
  {
    PartsHaveNoBreak(s);
    NonBlankHasNoBreak(Split(s));
  }

  // ---- Chunks ----

  function Pieces(p: string): seq<string> {
    if p == [] then []
    else if |p| <= MAX_CHUNK then [p]
    else [p[..MAX_CHUNK]] + Pieces(p[MAX_CHUNK..])
  }

  function AllPieces(paragraphs: seq<string>): seq<string> {
    if paragraphs == [] then [] else Pieces(paragraphs[0]) + AllPieces(paragraphs[1..])
  }

  function ChunksOf(content: string): seq<string> {
    var result := AllPieces(Paragraphs(content));
    if result == [] then [if |content| <= MAX_CHUNK then content else content[..MAX_CHUNK]] else result
  }

  predicate ChunkSized(c: string) {
    1 <= |c| <= MAX_CHUNK
  }

  lemma {:induction false} PiecesJoin(p: string)
    ensures Concat(Pieces(p)) == p
    ensures forall c :: c in Pieces(p) ==> ChunkSized(c)
    ensures |Pieces(p)| == (|p| + MAX_CHUNK - 1) / MAX_CHUNK
  {
    if p != [] {
      if |p| <= MAX_CHUNK {
        assert Concat([p]) == p + Concat([]) == p;
      } else {
        PiecesJoin(p[MAX_CHUNK..]);
        assert p == p[..MAX_CHUNK] + p[MAX_CHUNK..];
      }
    }
  }

  lemma {:induction false} AllPiecesJoin(paragraphs: seq<string>)
    ensures Concat(AllPieces(paragraphs)) == Concat(paragraphs)
    ensures forall c :: c in AllPieces(paragraphs) ==> ChunkSized(c)
    ensures (forall p :: p in paragraphs ==> p != []) && paragraphs != [] ==> AllPieces(paragraphs) != []
  {
    if paragraphs != [] {
      assert paragraphs[0] in paragraphs;
      PiecesJoin(paragraphs[0]);
      AllPiecesJoin(paragraphs[1..]);
      ConcatAppend(Pieces(paragraphs[0]), AllPieces(paragraphs[1..]));
    }
  }

  /** The chunks of a text with anything visible hold 1 to 800 characters each, join up to
      its stripped paragraphs, and so keep every visible character in order. The fallback
      to the text's first 800 characters is taken for the other texts only. */
  lemma ChunksCoverContent(content: string)
    ensures Visible(content) != [] ==>
              && Concat(ChunksOf(content)) == Concat(Paragraphs(content))
              && (forall c :: c in ChunksOf(content) ==> ChunkSized(c))
    ensures AllPieces(Paragraphs(content)) == [] <==> Visible(content) == []
    ensures Visible(Concat(ChunksOf(content))) == Visible(content)
  {
    ParagraphsKeepVisible(content);
    AllPiecesJoin(Paragraphs(content));
    if Visible(content) == [] {
      var c := if |content| <= MAX_CHUNK then content else content[..MAX_CHUNK];
      assert content == c + content[|c|..];
      VisibleConcat(c, content[|c|..]);
      assert Concat([c]) == c + Concat([]) == c;
    }
  }

  lemma CleanedIsVisible(s: string)
    requires Cleaned(s)
    ensures Visible(s) != []
  {
    VisibleHead(s);
  }

  /** The inner loop, over offsets into one paragraph. */
  method CutParagraph(paragraph: string) returns (result: seq<string>)
    ensures result == Pieces(paragraph)
  {
    result := [];
    var offset := 0;
    ghost var rest := paragraph;
    while offset < |paragraph|
      invariant 0 <= offset
      invariant rest == if offset < |paragraph| then paragraph[offset..] else []
      invariant result + Pieces(rest) == Pieces(paragraph)
    {
      var end := if offset + MAX_CHUNK < |paragraph| then offset + MAX_CHUNK else |paragraph|;
      ghost var next := paragraph[end..];
      assert Pieces(rest) == [paragraph[offset..end]] + Pieces(next) by {
        if |rest| > MAX_CHUNK {
          assert rest[..MAX_CHUNK] == paragraph[offset..end] && rest[MAX_CHUNK..] == next;
        } else {
          assert rest == paragraph[offset..end];
        }
      }
      result := result + [paragraph[offset..end]];
      offset, rest := offset + MAX_CHUNK, next;
    }
  }

  /** The outer loop, and the fallback for a text without paragraphs. */
  method CutChunks(content: string) returns (result: seq<string>)
    ensures result == ChunksOf(content)
  {
    var paragraphs := Paragraphs(content);
    result := [];
    for i := 0 to |paragraphs|
      invariant result + AllPieces(paragraphs[i..]) == AllPieces(paragraphs)
    {
      var pieces := CutParagraph(paragraphs[i]);
      assert paragraphs[i..][0] == paragraphs[i] && paragraphs[i..][1..] == paragraphs[i + 1..];
      result := result + pieces;
    }
    if result == [] {
      result := [if |content| <= MAX_CHUNK then content else content[..MAX_CHUNK]];
    }
  }

  /** The text that import and proposals store never falls back. */
  lemma CleanedContentNeverFallsBack(content: string)
    requires CleanContent(content).Ok?
    ensures var text := CleanContent(content).value;
            && ChunksOf(text) == AllPieces(Paragraphs(text))
            && Concat(ChunksOf(text)) == Concat(Paragraphs(text))
            && forall c :: c in ChunksOf(text) ==> ChunkSized(c)
  {
    CleanContentIsCleaned(content);
    CleanedIsVisible(CleanContent(content).value);
    ChunksCoverContent(CleanContent(content).value);
  }
}
