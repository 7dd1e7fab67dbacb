// Counter loops that make a generated name unique: try a first candidate,
// then the same text with an increasing number until a free one is found.
// Slugs (`base`, `base-1`, `base-2`, ...) and copied product names
// (`name (копия 1)`, ...) all follow this shape.

module UniqueSlugs {
  import opened Common
  import opened Slugify

  /** The text tried for counter value `n`: `f"{prefix}{n}{suffix}"`. */
  function Candidate(prefix: string, n: nat, suffix: string): string
  {
    prefix + NatToString(n) + suffix
  }

  /** `f"{base}-{n}"`. */
  function Suffixed(base: string, n: nat): string
  {
    Candidate(base + "-", n, "")
  }

  /** `n` is the first counter from `start` whose candidate is free. */
  predicate FirstFreeFrom(taken: set<string>, prefix: string, suffix: string, start: nat, n: nat)
  {
    start <= n
    && Candidate(prefix, n, suffix) !in taken
    && forall k :: start <= k < n ==> Candidate(prefix, k, suffix) in taken
  }

  function Pow10(e: nat): (r: nat)
    ensures r >= 1
  {
    if e == 0 then 1 else 10 * Pow10(e - 1)
  }

  lemma {:induction false} Pow10Monotone(a: nat, b: nat)
    requires a <= b
    ensures Pow10(a) <= Pow10(b)
    decreases b
  {
    if a < b {
      Pow10Monotone(a, b - 1);
    }
  }

  /** A number printed with `d` digits is below `10^d`. */
  lemma {:induction false} DigitCountBound(n: nat)
    ensures n < Pow10(|NatToString(n)|)
  {
    if n >= 10 {
      DigitCountBound(n / 10);
      assert |NatToString(n)| == |NatToString(n / 10)| + 1;
    }
  }

  /** The length of the longest text in a finite set. */
  ghost function Longest(s: set<string>): (r: nat)
    ensures forall x :: x in s ==> |x| <= r
    decreases |s|
  {
    if s == {} then 0
    else
      var x :| x in s;
      var m := Longest(s - {x});
      if |x| > m then |x| else m
  }

  /** A taken candidate has a counter below `10^Longest(taken)`. */
  lemma {:induction false} TakenCounterBound(taken: set<string>, prefix: string, suffix: string, n: nat)
    requires Candidate(prefix, n, suffix) in taken
    ensures n < Pow10(Longest(taken))
  {
    DigitCountBound(n);
    Pow10Monotone(|NatToString(n)|, Longest(taken));
  }

  /**
   * The counter loop: starting at `start`, step the counter while the
   * candidate is taken. Terminates because only finitely many texts are taken.
   */
  method FirstFreeCounter(taken: set<string>, prefix: string, suffix: string, start: nat) returns (n: nat)
    ensures FirstFreeFrom(taken, prefix, suffix, start, n)
  {
    ghost var bound := Pow10(Longest(taken)) + start;
    n := start;
    while Candidate(prefix, n, suffix) in taken
      invariant start <= n <= bound
      invariant forall k :: start <= k < n ==> Candidate(prefix, k, suffix) in taken
      decreases bound - n
    {
      TakenCounterBound(taken, prefix, suffix, n);
      n := n + 1;
    }
  }

  /**
   * `slug` is what `generate_unique_slug(base)` gives against `taken`:
   * `base` when free, otherwise `base-n` for the smallest free `n >= 1`.
   */
  ghost predicate UniqueSlugOf(base: string, taken: set<string>, slug: string)
  {
    (base !in taken ==> slug == base)
    && (base in taken ==> exists n :: FirstFreeFrom(taken, base + "-", "", 1, n) && slug == Suffixed(base, n))
  }

  /** The forms' `generate_unique_slug(base)` (app/admin/forms.py). */
  method GenerateUniqueSlug(base: string, taken: set<string>) returns (slug: string)
    ensures slug !in taken
    ensures UniqueSlugOf(base, taken, slug)
  {
    if base !in taken {
      slug := base;
    } else {
      var n := FirstFreeCounter(taken, base + "-", "", 1);
      slug := Suffixed(base, n);
    }
  }

  /** Only one counter is the first free one. */
  lemma {:induction false} FirstFreeUnique(taken: set<string>, prefix: string, suffix: string, start: nat, a: nat, b: nat)
    requires FirstFreeFrom(taken, prefix, suffix, start, a)
    requires FirstFreeFrom(taken, prefix, suffix, start, b)
    ensures a == b
  {
  }

  /** The generated slug is determined by the base and the taken slugs. */
  lemma {:induction false} UniqueSlugDeterministic(base: string, taken: set<string>, s1: string, s2: string)
    requires UniqueSlugOf(base, taken, s1) && UniqueSlugOf(base, taken, s2)
    ensures s1 == s2
  {
    if base in taken {
      var n1 :| FirstFreeFrom(taken, base + "-", "", 1, n1) && s1 == Suffixed(base, n1);
      var n2 :| FirstFreeFrom(taken, base + "-", "", 1, n2) && s2 == Suffixed(base, n2);
      FirstFreeUnique(taken, base + "-", "", 1, n1, n2);
    }
  }

  /** Two different counters never give the same candidate. */
  lemma {:induction false} CandidateInjective(prefix: string, suffix: string, a: nat, b: nat)
    requires Candidate(prefix, a, suffix) == Candidate(prefix, b, suffix)
    ensures a == b
  {
    var ca, cb := Candidate(prefix, a, suffix), Candidate(prefix, b, suffix);
    var sa, sb := NatToString(a), NatToString(b);
    assert |sa| == |sb|;
    assert sa == ca[|prefix|..|prefix| + |sa|];
    assert sb == cb[|prefix|..|prefix| + |sb|];
    NatToStringInjective(a, b);
  }

  /** Appending `-n` to a non-empty slug gives a slug again. */
  lemma {:induction false} SuffixedIsSlug(base: string, n: nat)
    requires base != "" && IsSlug(base)
    ensures IsSlug(Suffixed(base, n))
  {
    var d := NatToString(n);
    NatToStringRoundTrip(n);
    var r := Suffixed(base, n);
    assert r == base + "-" + d;
    forall i | 0 <= i < |r| ensures IsSlugChar(r[i]) {
      if i < |base| {
        assert r[i] == base[i];
      } else if i > |base| {
        assert r[i] == d[i - |base| - 1];
      }
    }
    forall i | 0 <= i < |r| - 1 ensures !(r[i] == '-' && r[i + 1] == '-') {
      if i + 1 < |base| {
        assert r[i] == base[i] && r[i + 1] == base[i + 1];
      } else if i + 1 == |base| {
        assert r[i] == base[|base| - 1];
      } else {
        assert r[i + 1] == d[i - |base|];
      }
    }
    assert r[|r| - 1] == d[|d| - 1];
  }
}
