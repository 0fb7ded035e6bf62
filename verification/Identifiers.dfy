/** The identifiers that records allow. */
module Identifiers {

  /** The form of identifiers: three to 128 characters, of which the first is a letter. */
  predicate OpaqueId(s: string) {
    && 3 <= |s| <= 128 && 'a' <= s[0] <= 'z'
    && forall c :: c in s ==> 'a' <= c <= 'z' || '0' <= c <= '9' || c == '_' || c == '-'
  }

  const LETTERS := "abcdefghijklmnopqrstuvwxyz"
  const OTHERS := "0123456789_-"

  lemma IsLetterIff(c: char)
    ensures c in LETTERS <==> 'a' <= c <= 'z'
  {
    if 'a' <= c <= 'z' { assert LETTERS[c as int - 'a' as int] == c; }
  }

  lemma IsOtherIff(c: char)
    ensures c in OTHERS <==> '0' <= c <= '9' || c == '_' || c == '-'
  {
    if '0' <= c <= '9' { assert OTHERS[c as int - '0' as int] == c; }
    assert OTHERS[10] == '_' && OTHERS[11] == '-';
  }

  /** Three to 128 characters of the pattern ^[a-z][a-z0-9_-]+$. */
  lemma OpaqueIdIff(s: string)
    ensures OpaqueId(s) <==>
              && 3 <= |s| <= 128 && s[0] in LETTERS
              && forall c :: c in s[1..] ==> c in LETTERS || c in OTHERS
  {
    forall c: char
      ensures c in LETTERS <==> 'a' <= c <= 'z'
      ensures c in OTHERS <==> '0' <= c <= '9' || c == '_' || c == '-'
    {
      IsLetterIff(c);
      IsOtherIff(c);
    }
    if s != [] {
      assert forall c :: c in s <==> c == s[0] || c in s[1..];
    }
  }

  predicate AllOpaque(ids: seq<string>) {
    forall id :: id in ids ==> OpaqueId(id)
  }
}
