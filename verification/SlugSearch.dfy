// The search for a free workspace slug: the base, then base-2, base-3, and so on.
module SlugSearch {
  import opened Common

  function Digit(d: nat): (c: char)
    requires d < 10
  {
    "0123456789"[d]
  }

  // Decimal printing, most significant digit first.
  function Decimal(n: nat): string {
    if n < 10 then [Digit(n)] else Decimal(n / 10) + [Digit(n % 10)]
  }

  lemma {:induction false} DecimalInjective(m: nat, n: nat)
    requires Decimal(m) == Decimal(n)
    ensures m == n
    decreases m
  {
    var a, b := Decimal(m), Decimal(n);
    assert a[|a| - 1] == Digit(m % 10) && b[|b| - 1] == Digit(n % 10);
    DecimalLength(m);
    DecimalLength(n);
    if m < 10 || n < 10 {
    } else {
      assert Decimal(m / 10) == a[..|a| - 1] == Decimal(n / 10);
      DecimalInjective(m / 10, n / 10);
    }
  }

  // Reading digits the usual way, each by its place in the character set.
  function ReadDecimal(s: string): int {
    if s == "" then 0 else 10 * ReadDecimal(s[..|s| - 1]) + (s[|s| - 1] as int - '0' as int)
  }

  // Printing is undone by reading; only digits are printed, and no zero comes first.
  lemma {:induction false} DecimalReadsBack(n: nat)
    ensures ReadDecimal(Decimal(n)) == n
    ensures forall i :: 0 <= i < |Decimal(n)| ==> '0' <= Decimal(n)[i] <= '9'
    ensures Decimal(n) != "" && (n > 0 ==> Decimal(n)[0] != '0')
  {
    DigitIsPlace(n % 10);
    if n < 10 {
      assert Decimal(n)[..0] == "";
    } else {
      DecimalReadsBack(n / 10);
      assert Decimal(n)[..|Decimal(n)| - 1] == Decimal(n / 10);
    }
  }

  lemma DigitIsPlace(d: nat)
    requires d < 10
    ensures Digit(d) as int == '0' as int + d
  {
  }

  lemma {:induction false} DecimalLength(n: nat)
    ensures |Decimal(n)| >= 1 && (|Decimal(n)| == 1 <==> n < 10)
  {
    if n < 10 {
    } else {
      DecimalLength(n / 10);
    }
  }

  // The k-th slug the search tries.
  function Candidate(slugBase: string, k: nat): string {
    if k <= 1 then slugBase else slugBase + "-" + Decimal(k)
  }

  lemma CandidatesDiffer(slugBase: string, j: nat, k: nat)
    requires 1 <= j < k
    ensures Candidate(slugBase, j) != Candidate(slugBase, k)
  {
    if j == 1 {
      assert |Candidate(slugBase, k)| > |slugBase|;
    } else if Candidate(slugBase, j) == Candidate(slugBase, k) {
      var p := |slugBase + "-"|;
      assert Decimal(j) == Candidate(slugBase, j)[p..] == Candidate(slugBase, k)[p..] == Decimal(k);
      DecimalInjective(j, k);
    }
  }

  ghost predicate Tried(slugBase: string, suffix: nat, seen: set<string>) {
    |seen| == suffix - 1 && forall s :: s in seen ==> exists j :: 1 <= j < suffix && s == Candidate(slugBase, j)
  }

  lemma NextIsNew(slugBase: string, suffix: nat, seen: set<string>)
    requires suffix >= 1 && Tried(slugBase, suffix, seen)
    ensures Tried(slugBase, suffix + 1, seen + {Candidate(slugBase, suffix)})
  {
    hide Candidate;
    forall j | 1 <= j < suffix
      ensures Candidate(slugBase, j) != Candidate(slugBase, suffix)
    {
      CandidatesDiffer(slugBase, j, suffix);
    }
  }

  lemma RoomLeft(slugBase: string, suffix: nat, seen: set<string>, existing: set<string>)
    requires suffix >= 1 && Tried(slugBase, suffix, seen) && seen <= existing
    ensures suffix <= |existing| + 1
  {
    SubsetSize(seen, existing);
  }

  predicate AllTaken(slugBase: string, suffix: nat, existing: set<string>) {
    forall j :: 1 <= j < suffix ==> Candidate(slugBase, j) in existing
  }

  lemma NextTaken(slugBase: string, suffix: nat, existing: set<string>)
    requires AllTaken(slugBase, suffix, existing) && Candidate(slugBase, suffix) in existing
    ensures AllTaken(slugBase, suffix + 1, existing)
  {
  }

  lemma SuffixedCandidate(slugBase: string, k: nat)
    ensures k > 1 ==> Candidate(slugBase, k) == slugBase + "-" + Decimal(k)
  {
  }

  lemma CandidateIs(slugBase: string)
    ensures forall k: nat :: k >= 1 ==>
      Candidate(slugBase, k) == if k == 1 then slugBase else slugBase + "-" + Decimal(k)
  {
  }

  // Terminates on every finite set of existing slugs, with the first free candidate.
  method FindFreeSlug(slugBase: string, existing: set<string>) returns (slug: string, suffix: nat)
    ensures slug == (if suffix == 1 then slugBase else slugBase + "-" + Decimal(suffix)) && slug !in existing
    ensures AllTaken(slugBase, suffix, existing)
    ensures 1 <= suffix <= |existing| + 1
  {
    slug, suffix := slugBase, 1;
    ghost var seen: set<string> := {};
    assert Tried(slugBase, 1, seen) && AllTaken(slugBase, 1, existing) && slug == Candidate(slugBase, suffix);
    CandidateIs(slugBase);
    hide Tried, AllTaken, Decimal, Candidate;
    while true
      invariant 1 <= suffix <= |existing| + 1 && slug == Candidate(slugBase, suffix)
      invariant seen <= existing && Tried(slugBase, suffix, seen) && AllTaken(slugBase, suffix, existing)
      decreases |existing| + 1 - suffix
    {
      if slug !in existing {
        break;
      }
      NextIsNew(slugBase, suffix, seen);
      NextTaken(slugBase, suffix, existing);
      seen := seen + {slug};
      suffix := suffix + 1;
      RoomLeft(slugBase, suffix, seen, existing);
      slug := slugBase + "-" + Decimal(suffix);
      SuffixedCandidate(slugBase, suffix);
    }
  }

  lemma {:induction false} SubsetSize(a: set<string>, b: set<string>)
    requires a <= b
    ensures |a| <= |b|
  {
    if x :| x in a {
      SubsetSize(a - {x}, b - {x});
    }
  }
}
