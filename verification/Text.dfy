/** White space and stripping it from both ends, and the form of a digest. */
module Text {

  /** The white space of Python's str.isspace, which strip and the pattern \s share. */
  predicate IsSpace(c: char) {
    var n := c as int;
    || 9 <= n <= 13 || 28 <= n <= 32 || n == 0x85 || n == 0xa0 || n == 0x1680
    || 0x2000 <= n <= 0x200a || n == 0x2028 || n == 0x2029 || n == 0x202f || n == 0x205f || n == 0x3000
  }

  /** The characters of Unicode's white space, and the four separators of ASCII. */
  const SPACES: set<int> :=
    {0x09, 0x0a, 0x0b, 0x0c, 0x0d, 0x1c, 0x1d, 0x1e, 0x1f, 0x20, 0x85, 0xa0, 0x1680, 0x2000, 0x2001, 0x2002, 0x2003,
     0x2004, 0x2005, 0x2006, 0x2007, 0x2008, 0x2009, 0x200a, 0x2028, 0x2029, 0x202f, 0x205f, 0x3000}

  lemma SpacesAre(c: char)
    ensures IsSpace(c) <==> c as int in SPACES
  {
  }

  function StripLeft(s: string): string {
    if s == [] || !IsSpace(s[0]) then s else StripLeft(s[1..])
  }

  function StripRight(s: string): string {
    if s == [] || !IsSpace(s[|s| - 1]) then s else StripRight(s[..|s| - 1])
  }

  function Strip(s: string): string {
    StripRight(StripLeft(s))
  }

  /** The characters other than white space, in order. */
  function Visible(s: string): string {
    if s == [] then [] else (if IsSpace(s[0]) then [] else [s[0]]) + Visible(s[1..])
  }

  lemma {:induction false} VisibleConcat(a: string, b: string)
    ensures Visible(a + b) == Visible(a) + Visible(b)
  {
    if a == [] {
      assert a + b == b;
    } else {
      hide IsSpace;
      var head := if IsSpace(a[0]) then [] else [a[0]];
      VisibleConcat(a[1..], b);
      assert (a + b)[0] == a[0] && (a + b)[1..] == a[1..] + b;
      assert Visible(a + b) == head + (Visible(a[1..]) + Visible(b));
      assert head + (Visible(a[1..]) + Visible(b)) == (head + Visible(a[1..])) + Visible(b);
    }
  }

  lemma {:induction false} VisibleStripLeft(s: string)
    ensures Visible(StripLeft(s)) == Visible(s)
  {
    if s != [] && IsSpace(s[0]) { VisibleStripLeft(s[1..]); }
  }

  lemma {:induction false} VisibleStripRight(s: string)
    ensures Visible(StripRight(s)) == Visible(s)
  {
    if s != [] && IsSpace(s[|s| - 1]) {
      VisibleStripRight(s[..|s| - 1]);
      VisibleConcat(s[..|s| - 1], [s[|s| - 1]]);
      assert s == s[..|s| - 1] + [s[|s| - 1]];
    }
  }

  /** Stripping removes white space only. */
  lemma VisibleStrip(s: string)
    ensures Visible(Strip(s)) == Visible(s)
  {
    VisibleStripLeft(s);
    VisibleStripRight(StripLeft(s));
  }

  lemma {:induction false} StripLeftEnds(s: string)
    ensures StripLeft(s) == [] || !IsSpace(StripLeft(s)[0])
  {
    if s != [] && IsSpace(s[0]) { StripLeftEnds(s[1..]); }
  }

  lemma {:induction false} StripRightEnds(s: string)
    ensures StripRight(s) == [] || !IsSpace(StripRight(s)[|StripRight(s)| - 1])
    ensures StripRight(s) <= s
  {
    if s != [] && IsSpace(s[|s| - 1]) { StripRightEnds(s[..|s| - 1]); }
  }

  /** A stripped text is empty or begins and ends visibly. */
  predicate Stripped(s: string) {
    s == [] || (!IsSpace(s[0]) && !IsSpace(s[|s| - 1]))
  }

  lemma StripIsStripped(s: string)
    ensures Stripped(Strip(s))
  {
    StripLeftEnds(s);
    StripRightEnds(StripLeft(s));
  }

  lemma {:induction false} StripLeftDrops(s: string) returns (i: nat)
    ensures i <= |s| && StripLeft(s) == s[i..] && forall k :: 0 <= k < i ==> IsSpace(s[k])
  {
    if s == [] || !IsSpace(s[0]) {
      i := 0;
    } else {
      var rest := StripLeftDrops(s[1..]);
      i := rest + 1;
      assert s[1..][rest..] == s[i..];
      assert forall k :: 1 <= k < i ==> s[k] == s[1..][k - 1];
    }
  }

  lemma {:induction false} StripRightKeeps(s: string)
    ensures StripRight(s) <= s && forall k :: |StripRight(s)| <= k < |s| ==> IsSpace(s[k])
  {
    if s != [] && IsSpace(s[|s| - 1]) { StripRightKeeps(s[..|s| - 1]); }
  }

  /** What is stripped is white space at the two ends, and what lies between them is kept as it is. */
  lemma StripTakesEnds(s: string) returns (i: nat, j: nat)
    ensures i <= j <= |s| && Strip(s) == s[i..j]
    ensures forall k :: 0 <= k < i || j <= k < |s| ==> IsSpace(s[k])
    ensures i < j ==> !IsSpace(s[i]) && !IsSpace(s[j - 1])
  {
    i := StripLeftDrops(s);
    var left := StripLeft(s);
    StripRightKeeps(left);
    StripIsStripped(s);
    j := i + |StripRight(left)|;
    assert left[..j - i] == s[i..j];
    hide StripLeft, StripRight, IsSpace;
    forall k | j <= k < |s| ensures IsSpace(s[k]) { assert left[k - i] == s[k]; }
  }

  lemma {:induction false} VisibleHead(s: string)
    requires s != [] && !IsSpace(s[0])
    ensures Visible(s) != []
  {
  }

  /** Sixty-four lower-case hexadecimal digits. */
  predicate IsSha256(s: string) {
    |s| == 64 && forall c :: c in s ==> '0' <= c <= '9' || 'a' <= c <= 'f'
  }

  const HEX_DIGITS := "0123456789abcdef"

  lemma Sha256Iff(s: string)
    ensures IsSha256(s) <==> |s| == 64 && forall c :: c in s ==> c in HEX_DIGITS
  {
    forall c: char ensures c in HEX_DIGITS <==> '0' <= c <= '9' || 'a' <= c <= 'f' { HexDigitIff(c); }
    hide HEX_DIGITS;
  }

  lemma HexDigitIff(c: char)
    ensures c in HEX_DIGITS <==> '0' <= c <= '9' || 'a' <= c <= 'f'
  {
    if '0' <= c <= '9' { assert HEX_DIGITS[c as int - '0' as int] == c; }
    if 'a' <= c <= 'f' { assert HEX_DIGITS[10 + c as int - 'a' as int] == c; }
  }
}
