/**
 * The path allocator (`unique_path`): `folder/base+ext` when free, otherwise
 * `folder/base_001ext`, `folder/base_002ext`, ... up to the first free one. The
 * disk is the finite set of paths that exist; the allocator only looks at it.
 */
module Allocator {
  import opened Text
  import opened PathNames

  /** The first candidate, `folder / f"{base_name}{ext}"`. */
  function Plain(folder: string, base: string, ext: string): string {
    Join(folder, base + ext)
  }

  /** The i-th suffixed candidate, `folder / f"{base_name}_{i:03d}{ext}"`. */
  function Candidate(folder: string, base: string, ext: string, i: nat): string {
    Join(folder, base + "_" + PadNat(i, 3) + ext)
  }

  /** Distinct suffix numbers give distinct candidates. */
  lemma CandidateInjective(folder: string, base: string, ext: string, i: nat, j: nat)
    ensures Candidate(folder, base, ext, i) == Candidate(folder, base, ext, j) <==> i == j
  {
    if Candidate(folder, base, ext, i) == Candidate(folder, base, ext, j) {
      var a, b := PadNat(i, 3), PadNat(j, 3);
      JoinInjective(folder, base + "_" + a + ext, base + "_" + b + ext);
      var s, t := base + "_" + a + ext, base + "_" + b + ext;
      assert |a| == |b|;
      var k := |base| + 1;
      assert a == s[k..k + |a|];
      assert b == t[k..k + |b|];
      PadNatInjective(i, j, 3);
    }
  }

  /** No suffixed candidate coincides with the plain one: it is four characters longer. */
  lemma CandidateNotPlain(folder: string, base: string, ext: string, i: nat)
    ensures Candidate(folder, base, ext, i) != Plain(folder, base, ext)
  {
    assert |PadNat(i, 3)| >= 3;
  }

  /** The candidates numbered 1..n. */
  ghost function Tried(folder: string, base: string, ext: string, n: nat): set<string> {
    if n == 0 then {} else Tried(folder, base, ext, n - 1) + {Candidate(folder, base, ext, n)}
  }

  lemma {:induction false} TriedSize(folder: string, base: string, ext: string, n: nat)
    ensures |Tried(folder, base, ext, n)| == n
    ensures forall k :: k > n ==> Candidate(folder, base, ext, k) !in Tried(folder, base, ext, n)
  {
    if n > 0 {
      TriedSize(folder, base, ext, n - 1);
      forall k | k >= n
        ensures Candidate(folder, base, ext, k) !in Tried(folder, base, ext, n - 1)
      {
      }
      forall k | k > n
        ensures Candidate(folder, base, ext, k) != Candidate(folder, base, ext, n)
      {
        CandidateInjective(folder, base, ext, k, n);
      }
    }
  }

  lemma {:induction false} TriedWithin(folder: string, base: string, ext: string, existing: set<string>, n: nat)
    requires forall j :: 1 <= j <= n ==> Candidate(folder, base, ext, j) in existing
    ensures Tried(folder, base, ext, n) <= existing
  {
    if n > 0 {
      TriedWithin(folder, base, ext, existing, n - 1);
    }
  }

  /** Pigeonhole: a finite disk holds at most |existing| distinct taken candidates. */
  lemma TakenBound(folder: string, base: string, ext: string, existing: set<string>, n: nat)
    requires forall j :: 1 <= j <= n ==> Candidate(folder, base, ext, j) in existing
    ensures n <= |existing|
  {
    TriedWithin(folder, base, ext, existing, n);
    TriedSize(folder, base, ext, n);
    assert |Tried(folder, base, ext, n)| <= |existing| by {
      var t := Tried(folder, base, ext, n);
      assert existing == t + (existing - t);
    }
  }

  /** The number of the first free candidate at or after `i`, given that those before `i` are taken. */
  ghost function FirstFreeIndex(folder: string, base: string, ext: string, existing: set<string>, i: nat): (k: nat)
    requires i >= 1
    requires forall j :: 1 <= j < i ==> Candidate(folder, base, ext, j) in existing
    ensures i <= k && Candidate(folder, base, ext, k) !in existing
    decreases |existing| - i + 1
  {
    TakenBound(folder, base, ext, existing, i - 1);
    if Candidate(folder, base, ext, i) !in existing then i
    else FirstFreeIndex(folder, base, ext, existing, i + 1)
  }

  /** Every candidate numbered below the first free one is taken. */
  lemma {:induction false} FirstFreeIndexIsFirst(folder: string, base: string, ext: string, existing: set<string>, i: nat)
    requires i >= 1
    requires forall j :: 1 <= j < i ==> Candidate(folder, base, ext, j) in existing
    ensures forall j :: 1 <= j < FirstFreeIndex(folder, base, ext, existing, i) ==> Candidate(folder, base, ext, j) in existing
    decreases |existing| - i + 1
  {
    TakenBound(folder, base, ext, existing, i - 1);
    if Candidate(folder, base, ext, i) in existing {
      FirstFreeIndexIsFirst(folder, base, ext, existing, i + 1);
    }
  }

  /** The promise of `unique_path`: a free path, the plain one if possible, else the lowest free number. */
  ghost predicate IsAllocation(p: string, folder: string, base: string, ext: string, existing: set<string>) {
    && p !in existing
    && (Plain(folder, base, ext) !in existing ==> p == Plain(folder, base, ext))
    && (Plain(folder, base, ext) in existing ==>
          exists k :: 1 <= k && p == Candidate(folder, base, ext, k)
                      && forall j :: 1 <= j < k ==> Candidate(folder, base, ext, j) in existing)
  }

  /** What `unique_path` returns, as a function of the state of the disk. */
  ghost function Allocate(folder: string, base: string, ext: string, existing: set<string>): (p: string)
    ensures p !in existing
  {
    if Plain(folder, base, ext) !in existing then Plain(folder, base, ext)
    else Candidate(folder, base, ext, FirstFreeIndex(folder, base, ext, existing, 1))
  }

  /** `Allocate` keeps the promise of `unique_path`. */
  lemma AllocateIsAllocation(folder: string, base: string, ext: string, existing: set<string>)
    ensures IsAllocation(Allocate(folder, base, ext, existing), folder, base, ext, existing)
  {
    if Plain(folder, base, ext) in existing {
      FirstFreeIndexIsFirst(folder, base, ext, existing, 1);
      var k := FirstFreeIndex(folder, base, ext, existing, 1);
      assert Allocate(folder, base, ext, existing) == Candidate(folder, base, ext, k);
    }
  }

  /** The promise pins the path down: exactly one path meets it. */
  lemma AllocationUnique(p: string, q: string, folder: string, base: string, ext: string, existing: set<string>)
    requires IsAllocation(p, folder, base, ext, existing)
    requires IsAllocation(q, folder, base, ext, existing)
    ensures p == q
  {
    if Plain(folder, base, ext) in existing {
      var kp :| 1 <= kp && p == Candidate(folder, base, ext, kp)
                && forall j :: 1 <= j < kp ==> Candidate(folder, base, ext, j) in existing;
      var kq :| 1 <= kq && q == Candidate(folder, base, ext, kq)
                && forall j :: 1 <= j < kq ==> Candidate(folder, base, ext, j) in existing;
      assert kp == kq;
    }
  }

  /**
   * Asking twice without writing gives the same path; once that path exists, the
   * next request gets the `_001` candidate (when that one is free).
   */
  lemma AllocateAfterCreate(folder: string, base: string, ext: string, existing: set<string>)
    requires Plain(folder, base, ext) !in existing
    requires Candidate(folder, base, ext, 1) !in existing
    ensures Allocate(folder, base, ext, existing) == Plain(folder, base, ext)
    ensures Allocate(folder, base, ext, existing + {Plain(folder, base, ext)}) == Candidate(folder, base, ext, 1)
  {
    CandidateNotPlain(folder, base, ext, 1);
  }

  /** `unique_path`: the `while True` loop over the numbered candidates. */
  method UniquePath(folder: string, base: string, ext: string, existing: set<string>) returns (p: string)
    ensures p == Allocate(folder, base, ext, existing)
    ensures p !in existing
    ensures Plain(folder, base, ext) !in existing ==> p == Plain(folder, base, ext)
    ensures Plain(folder, base, ext) in existing ==>
              exists k :: 1 <= k && p == Candidate(folder, base, ext, k)
                          && forall j :: 1 <= j < k ==> Candidate(folder, base, ext, j) in existing
  {
    var candidate := Plain(folder, base, ext);
    if candidate !in existing {
      return candidate;
    }
    var i := 1;
    while true
      invariant i >= 1
      invariant forall j :: 1 <= j < i ==> Candidate(folder, base, ext, j) in existing
      invariant FirstFreeIndex(folder, base, ext, existing, i) == FirstFreeIndex(folder, base, ext, existing, 1)
      decreases |existing| - i + 1
    {
      candidate := Candidate(folder, base, ext, i);
      if candidate !in existing {
        assert 1 <= i && forall j :: 1 <= j < i ==> Candidate(folder, base, ext, j) in existing;
        return candidate;
      }
      TakenBound(folder, base, ext, existing, i);
      i := i + 1;
    }
  }
}
