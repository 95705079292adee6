/**
 * `resolve_collision` (sort-files.py:78-89): the name a moved file gets in
 * its category directory, chosen so that nothing already there is
 * overwritten. The directory is the finite set of names it holds; the
 * parent directory of every candidate is the same, so only names matter.
 */
module Collision {
  import opened Text
  import opened Paths

  /** The candidate for a given counter: `f"{stem}_{counter}{suffix}"`. */
  function Candidate(dest: string, counter: nat): string
  {
    Stem(dest) + "_" + Decimal(counter) + Suffix(dest)
  }

  /** Distinct counters give distinct candidates. */
  lemma CandidateInjective(dest: string, m: nat, n: nat)
    ensures Candidate(dest, m) == Candidate(dest, n) ==> m == n
  {
    if Candidate(dest, m) == Candidate(dest, n) {
      var p, q := Stem(dest) + "_", Suffix(dest);
      var a, b := Decimal(m), Decimal(n);
      assert |a| == |b|;
      assert a == (p + a + q)[|p|..|p| + |a|];
      assert b == (p + b + q)[|p|..|p| + |b|];
      DecimalInjective(m, n);
    }
  }

  /** A candidate is never the proposed name itself. */
  lemma CandidateIsNew(dest: string, n: nat)
    ensures Candidate(dest, n) != dest
  {
    StemAndSuffix(dest);
    assert |Candidate(dest, n)| > |dest|;
  }

  /** `r` is the name `resolve_collision` settles on: the proposed name when
      it is free, otherwise the candidate with the least counter from 1 that
      is free. */
  ghost predicate Resolves(dest: string, existing: set<string>, r: string)
  {
    r !in existing &&
    (dest !in existing ==> r == dest) &&
    (dest in existing ==>
      exists n: nat :: n >= 1 && r == Candidate(dest, n) &&
                       forall m: nat :: 1 <= m < n ==> Candidate(dest, m) in existing)
  }

  /** There is only one such name: the resolution is deterministic. */
  lemma ResolutionIsUnique(dest: string, existing: set<string>, r1: string, r2: string)
    requires Resolves(dest, existing, r1) && Resolves(dest, existing, r2)
    ensures r1 == r2
  {
    if dest in existing {
      var n1: nat :| n1 >= 1 && r1 == Candidate(dest, n1) &&
                     forall m: nat :: 1 <= m < n1 ==> Candidate(dest, m) in existing;
      var n2: nat :| n2 >= 1 && r2 == Candidate(dest, n2) &&
                     forall m: nat :: 1 <= m < n2 ==> Candidate(dest, m) in existing;
    }
  }

  /** Tries `stem_1.suffix`, `stem_2.suffix`, ... until a name is free. The
      loop ends because the candidates are distinct and the directory is
      finite: each step adds a new name of the directory to `tried`. */
  method ResolveCollision(dest: string, existing: set<string>) returns (r: string)
    ensures r !in existing
    ensures r == dest <==> dest !in existing
    ensures Resolves(dest, existing, r)
  {
    if dest !in existing {
      return dest;
    }
    var counter := 1;
    ghost var tried: set<string> := {};
    while true
      invariant counter >= 1
      invariant tried <= existing
      invariant forall m: nat :: 1 <= m < counter ==> Candidate(dest, m) in existing
      invariant forall s :: s in tried ==> exists m: nat :: 1 <= m < counter && s == Candidate(dest, m)
      decreases |existing - tried|
    {
      var candidate := Candidate(dest, counter);
      if candidate !in existing {
        CandidateIsNew(dest, counter);
        return candidate;
      }
      forall m: nat | 1 <= m < counter
        ensures Candidate(dest, m) != candidate
      {
        CandidateInjective(dest, m, counter);
      }
      assert candidate in existing - tried;
      forall m: nat | 1 <= m < counter + 1
        ensures Candidate(dest, m) in existing
      {
        if m == counter {
          assert Candidate(dest, m) == candidate;
        }
      }
      tried := tried + {candidate};
      counter := counter + 1;
    }
  }

  /** With `photo.png` and `photo_1.png` taken, a new `photo.png` becomes
      `photo_2.png`. */
  method PhotoExample() returns (r: string)
    ensures r == "photo_2.png"
  {
    var existing := {"photo.png", "photo_1.png"};
    r := ResolveCollision("photo.png", existing);
    PhotoResolves();
    ResolutionIsUnique("photo.png", existing, r, "photo_2.png");
  }

  lemma PhotoResolves()
    ensures Resolves("photo.png", {"photo.png", "photo_1.png"}, "photo_2.png")
  {
    PhotoCandidates();
    assert forall m: nat :: 1 <= m < 2 ==> Candidate("photo.png", m) == Candidate("photo.png", 1);
  }

  lemma PhotoCandidates()
    ensures Candidate("photo.png", 1) == "photo_1.png"
    ensures Candidate("photo.png", 2) == "photo_2.png"
  {
    var name := "photo.png";
    assert SuffixDotAt(name, 5);
    SuffixAtDot(name);
  }
}
