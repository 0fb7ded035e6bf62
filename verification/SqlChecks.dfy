/** Three-valued logic of SQL CHECK constraints: a check refuses a row only when it is
    false, so a comparison with NULL lets the row in. */
module SqlChecks {
  import opened Wrappers

  datatype Truth = True | False | Unknown

  function And(x: Truth, y: Truth): Truth {
    if x == False || y == False then False
    else if x == Unknown || y == Unknown then Unknown
    else True
  }

  function Or(x: Truth, y: Truth): Truth {
    if x == True || y == True then True
    else if x == Unknown || y == Unknown then Unknown
    else False
  }

  function Known(b: bool): Truth {
    if b then True else False
  }

  /** What length and GLOB see of a text: they stop at the first NUL. */
  function UpToNul(s: string): string {
    if s == [] || s[0] == '\0' then [] else [s[0]] + UpToNul(s[1..])
  }

  function Length(s: string): nat {
    |UpToNul(s)|
  }

  lemma {:induction false} UpToNulIsWhole(s: string)
    ensures UpToNul(s) == s <==> '\0' !in s
    ensures UpToNul(s) <= s
  {
    if s != [] && s[0] != '\0' { UpToNulIsWhole(s[1..]); }
  }

  lemma {:induction false} LengthAfter(prefix: string, s: string)
    requires '\0' !in prefix
    ensures Length(prefix + s) == |prefix| + Length(s)
  {
    if prefix == [] {
      assert prefix + s == s;
    } else {
      LengthAfter(prefix[1..], s);
      assert (prefix + s)[1..] == prefix[1..] + s;
    }
  }

  /** Whatever follows a NUL is not counted. */
  lemma LengthStopsAtNul(s: string, rest: string)
    requires '\0' !in s
    ensures Length(s + "\0" + rest) == |s|
  {
    assert s + "\0" + rest == s + ("\0" + rest);
    LengthAfter(s, "\0" + rest);
  }

  /** length(trim(column)) > 0: trimming takes blanks only, and leaves a text that does not begin with NUL. */
  predicate NonBlank(s: string) {
    s != [] && s[0] != '\0' && (s[0] != ' ' || NonBlank(s[1..]))
  }

  function LongerThanZero(column: Option<string>): Truth {
    match column
    case None => Unknown
    case Some(s) => Known(NonBlank(s))
  }

  function IsNull<T>(column: Option<T>): Truth {
    Known(column.None?)
  }

  predicate Passes(check: Truth) {
    check != False
  }

  // ---- The check on review columns that claims and job requirements share ----

  datatype ActorKind = User | Agent | Rule

  /** What was decided by whom, why and when. */
  datatype ReviewColumns = ReviewColumns(reviewer: Option<string>, kind: Option<ActorKind>, reason: Option<string>,
                                         at: Option<int>)

  function ReviewCheck(proposed: bool, r: ReviewColumns): Truth {
    Or(And(Known(proposed), And(And(IsNull(r.reviewer), IsNull(r.kind)), And(IsNull(r.reason), IsNull(r.at)))),
       And(And(Known(!proposed), LongerThanZero(r.reviewer)),
           And(And(if r.kind.None? then Unknown else Known(r.kind.value != Agent), LongerThanZero(r.reason)),
               Known(r.at.Some?))))
  }

  /** A decided row is refused only for a blank reviewer or reason, an agent, or a missing
      time: a reviewer or reason that is absent altogether passes. */
  lemma ReviewCheckOfDecided(r: ReviewColumns)
    ensures Passes(ReviewCheck(false, r)) <==>
              && (r.reviewer.Some? ==> NonBlank(r.reviewer.value))
              && r.kind != Some(Agent)
              && (r.reason.Some? ==> NonBlank(r.reason.value))
              && r.at.Some?
  {
  }

  lemma ReviewCheckOfProposed(r: ReviewColumns)
    ensures Passes(ReviewCheck(true, r)) <==> r == ReviewColumns(None, None, None, None)
  {
  }
}
