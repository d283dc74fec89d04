/** Finding a file name that is not taken yet. */
module FileNames {
  import Decimal

  /** `lastIndexOf(".")` */
  function LastDot(s: string): (i: int)
    ensures -1 <= i < |s|
    ensures i >= 0 ==> s[i] == '.'
    ensures forall j | i < j < |s| :: s[j] != '.'
  {
    if s == "" then -1 else if s[|s| - 1] == '.' then |s| - 1 else LastDot(s[..|s| - 1])
  }

  /** A leading dot does not start an extension. */
  function BaseName(name: string): string {
    if LastDot(name) > 0 then name[..LastDot(name)] else name
  }

  function Extension(name: string): string {
    if LastDot(name) > 0 then name[LastDot(name)..] else ""
  }

  function Candidate(name: string, counter: nat): string {
    BaseName(name) + " (" + Decimal.Show(counter) + ")" + Extension(name)
  }

  /** A candidate keeps the extension, which starts at the last dot unless that is the first character. */
  lemma CandidateKeepsExtension(name: string, counter: nat, dot: nat)
    requires 0 < dot < |name| && name[dot] == '.' && '.' !in name[dot + 1..]
    ensures Candidate(name, counter) == name[..dot] + " (" + Decimal.Show(counter) + ")" + name[dot..]
  {
    assert forall j | dot < j < |name| :: name[j] == name[dot + 1..][j - dot - 1];
    assert LastDot(name) == dot;
  }

  /** Without a dot behind the first character, the counter comes last. */
  lemma CandidateWithoutExtension(name: string, counter: nat)
    requires forall i | 0 < i < |name| :: name[i] != '.'
    ensures Candidate(name, counter) == name + " (" + Decimal.Show(counter) + ")"
  {}

  lemma CandidateInjective(name: string, i: nat, j: nat)
    requires Candidate(name, i) == Candidate(name, j)
    ensures i == j
  {
    var base, a, b := BaseName(name), Decimal.Show(i), Decimal.Show(j);
    assert |a| == |b|;
    assert a == Candidate(name, i)[|base| + 2..|base| + 2 + |a|];
    assert b == Candidate(name, j)[|base| + 2..|base| + 2 + |b|];
    Decimal.ShowInjective(i, j);
  }

  lemma CandidateIsNew(name: string, counter: nat)
    ensures Candidate(name, counter) != name
  {
    assert |BaseName(name)| + |Extension(name)| == |name|;
    assert |Candidate(name, counter)| > |name|;
  }

  /** Pigeonhole: if the desired name and the first `n` candidates are taken, more than `n` names are taken. */
  lemma {:induction false} TakenCandidates(name: string, taken: set<string>, n: nat)
    requires name in taken
    requires forall i | 1 <= i <= n :: Candidate(name, i) in taken
    ensures n < |taken|
  {
    if n > 0 {
      var rest := taken - {Candidate(name, n)};
      CandidateIsNew(name, n);
      forall i | 1 <= i <= n - 1 ensures Candidate(name, i) in rest {
        if Candidate(name, i) == Candidate(name, n) {
          CandidateInjective(name, i, n);
        }
      }
      TakenCandidates(name, rest, n - 1);
    }
  }

  /**
   * Returns the desired name if it is free, and otherwise the candidate with the least free counter,
   * which is at most the number of names taken.
   */
  method GetUniqueFileName(name: string, existing: seq<string>) returns (unique: string, ghost counter: nat)
    ensures unique !in existing
    ensures unique == name <==> name !in existing
    ensures name in existing ==>
              && 1 <= counter <= |set x | x in existing|
              && unique == Candidate(name, counter)
              && forall i | 1 <= i < counter :: Candidate(name, i) in existing
  {
    counter := 0;
    var taken := set x | x in existing;
    if name !in taken {
      return name, counter;
    }
    var next := 1;
    unique := Candidate(name, next);
    next := next + 1;
    while unique in taken
      invariant next >= 2 && unique == Candidate(name, next - 1)
      invariant forall i | 1 <= i < next - 1 :: Candidate(name, i) in taken
      invariant next - 2 < |taken|
      decreases |taken| + 2 - next
    {
      TakenCandidates(name, taken, next - 1);
      unique := Candidate(name, next);
      next := next + 1;
    }
    CandidateIsNew(name, next - 1);
    counter := next - 1;
  }
}
