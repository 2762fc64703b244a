/** The loops that give a model instance a slug no other row has. */
module Slugs {
  import Decimal

  /** The n-th slug tried: the base itself, then the base with "-1", "-2", ... */
  function Candidate(base: string, n: nat): string {
    if n == 0 then base else base + "-" + Decimal.Str(n)
  }

  lemma CandidatesDiffer(base: string, m: nat, n: nat)
    requires Candidate(base, m) == Candidate(base, n)
    ensures m == n
  {
    var a, b := Candidate(base, m), Candidate(base, n);
    if m > 0 {
      assert a[|base| + 1..] == Decimal.Str(m);
    }
    if n > 0 {
      assert b[|base| + 1..] == Decimal.Str(n);
    }
    if m > 0 && n > 0 {
      Decimal.StrInjective(m, n);
    }
  }

  function Tried(base: string, n: nat): set<string> {
    set m: nat | m < n :: Candidate(base, m)
  }

  lemma NextIsNew(base: string, n: nat)
    ensures Candidate(base, n) !in Tried(base, n)
    ensures Tried(base, n + 1) == Tried(base, n) + {Candidate(base, n)}
  {
    forall m: nat | m < n
      ensures Candidate(base, m) != Candidate(base, n)
    {
      if Candidate(base, m) == Candidate(base, n) {
        CandidatesDiffer(base, m, n);
      }
    }
  }

  lemma {:induction false} TriedSize(base: string, n: nat)
    ensures |Tried(base, n)| == n
  {
    if n > 0 {
      TriedSize(base, n - 1);
      NextIsNew(base, n - 1);
    }
  }

  lemma {:induction false} SubsetSize(a: set<string>, b: set<string>)
    requires a <= b
    ensures |a| <= |b|
    decreases a
  {
    if x :| x in a {
      SubsetSize(a - {x}, b - {x});
    }
  }

  /** All of the first n candidates being taken leaves room for at most |existing| of them. */
  lemma TriedFit(base: string, existing: set<string>, n: nat)
    requires forall m: nat :: m < n ==> Candidate(base, m) in existing
    ensures n <= |existing|
  {
    TriedSize(base, n);
    SubsetSize(Tried(base, n), existing);
  }

  /** The least counter, from n on, whose candidate is free. */
  function FirstFree(base: string, existing: set<string>, n: nat): (k: nat)
    requires forall m: nat :: m < n ==> Candidate(base, m) in existing
    ensures k >= n && Candidate(base, k) !in existing && forall m: nat :: m < k ==> Candidate(base, m) in existing
    decreases |existing| - n
  {
    if Candidate(base, n) !in existing then n
    else
      TriedFit(base, existing, n + 1);
      FirstFree(base, existing, n + 1)
  }

  /**
   The suffix loop: it stops within |existing| + 1 tests, with an unused slug whose counter is
   the least possible.
   */
  method UniqueSlug(base: string, existing: set<string>) returns (slug: string, tests: nat)
    ensures slug !in existing && slug == Candidate(base, FirstFree(base, existing, 0))
    ensures tests == FirstFree(base, existing, 0) + 1 <= |existing| + 1
  {
    slug := base;
    var num := 1;
    tests := 1;
    ghost var least := FirstFree(base, existing, 0);
    TriedFit(base, existing, least);
    while slug in existing
      invariant num >= 1 && tests == num && slug == Candidate(base, num - 1)
      invariant num - 1 <= least
      decreases least + 1 - num
    {
      slug := base + "-" + Decimal.Str(num);
      num := num + 1;
      tests := tests + 1;
    }
    assert num - 1 == least;
  }

  // ---------- Runs of saves ----------

  type Table = map<int, string>

  function Others(table: Table, pk: int, excludeSelf: bool): set<string> {
    set k | k in table && (k != pk || !excludeSelf) :: table[k]
  }

  /**
   `save`: an instance whose slug is empty or missing gets one; `excludeSelf` is set for `Voice` and
   `unique_slugify`.
   */
  function Save(table: Table, pk: int, base: string, excludeSelf: bool): Table {
    if pk in table && table[pk] != "" then table
    else table[pk := Candidate(base, FirstFree(base, Others(table, pk, excludeSelf), 0))]
  }

  class SlugTable {
    var table: Table

    method SaveInstance(pk: int, base: string, excludeSelf: bool)
      modifies this
      ensures table == Save(old(table), pk, base, excludeSelf)
    {
      if pk !in table || table[pk] == "" {
        var slug, _ := UniqueSlug(base, Others(table, pk, excludeSelf));
        table := table[pk := slug];
      }
    }
  }

  /**
   After its save an instance has a slug: the one it had, or else one of the candidates of its base
   that no other row has. It is the empty text exactly when the base is and no other row has that.
   */
  lemma SavedHasSlug(table: Table, pk: int, base: string, excludeSelf: bool)
    ensures pk in Save(table, pk, base, excludeSelf)
    ensures var slug := Save(table, pk, base, excludeSelf)[pk];
            if pk in table && table[pk] != "" then slug == table[pk]
            else (forall k :: k in table && k != pk ==> table[k] != slug) && exists n: nat :: slug == Candidate(base, n)
    ensures Save(table, pk, base, excludeSelf)[pk] == "" <==>
            base == "" && (pk !in table || table[pk] == "") && "" !in Others(table, pk, excludeSelf)
  {
    var k := FirstFree(base, Others(table, pk, excludeSelf), 0);
    assert Save(table, pk, base, excludeSelf)[pk]
        == if pk in table && table[pk] != "" then table[pk] else Candidate(base, k);
    assert k > 0 ==> Candidate(base, 0) in Others(table, pk, excludeSelf);
    assert forall j :: j in table && j != pk ==> table[j] in Others(table, pk, excludeSelf);
  }

  predicate DistinctSlugs(table: Table) {
    forall a, b :: a in table && b in table && a != b ==> table[a] != table[b]
  }

  datatype SaveCall = SaveCall(pk: int, base: string, excludeSelf: bool)

  function Saves(table: Table, calls: seq<SaveCall>): Table {
    if calls == [] then table
    else
      var c := calls[|calls| - 1];
      Save(Saves(table, calls[..|calls| - 1]), c.pk, c.base, c.excludeSelf)
  }

  /** Any sequential run of saves keeps the slugs pairwise distinct and never changes a non-empty one. */
  lemma {:induction false} SavesKeepDistinct(table: Table, calls: seq<SaveCall>)
    requires DistinctSlugs(table)
    ensures DistinctSlugs(Saves(table, calls))
    ensures forall pk :: pk in table && table[pk] != "" ==>
              pk in Saves(table, calls) && Saves(table, calls)[pk] == table[pk]
  {
    if calls != [] {
      var c := calls[|calls| - 1];
      var before := Saves(table, calls[..|calls| - 1]);
      SavesKeepDistinct(table, calls[..|calls| - 1]);
      var others := Others(before, c.pk, c.excludeSelf);
      assert forall k :: k in before && k != c.pk ==> before[k] in others;
      var slug := Candidate(c.base, FirstFree(c.base, others, 0));
      assert slug !in others;
    }
  }
}
