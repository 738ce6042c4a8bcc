/** Searching a cyclic range of numbers for one that is not in use. */
module CyclicSearch {
  import opened FiniteSets
  import opened Division

  /** The k-th number tried from the cursor, around `first .. first + size`. */
  function Candidate(first: nat, size: nat, cursor: nat, k: nat): (c: nat)
    requires first <= cursor < first + size
    ensures first <= c < first + size
  {
    first + (cursor - first + k) % size
  }

  function Next(first: nat, size: nat, cursor: nat): nat
    requires first <= cursor < first + size
  {
    if cursor + 1 == first + size then first else cursor + 1
  }

  function Candidates(first: nat, size: nat, cursor: nat, n: nat): set<nat>
    requires first <= cursor < first + size
  {
    set k | 0 <= k < n :: Candidate(first, size, cursor, k)
  }

  /** Moving the cursor renumbers the candidates. */
  lemma CandidateShift(first: nat, size: nat, cursor: nat, k: nat)
    requires first <= cursor < first + size && k > 0
    ensures Candidate(first, size, cursor, k) == Candidate(first, size, Next(first, size, cursor), k - 1)
  {
    if cursor + 1 == first + size {
      OneTurn(k - 1, size);
    }
  }

  lemma OneTurn(n: nat, size: nat)
    requires size > 0
    ensures (n + size) % size == n % size
  {
    var q := n / size;
    assert n + size == (q + 1) * size + n % size;
    QuotientUnique(n + size, size, q + 1, n % size);
  }

  /** Candidates repeat only after a full turn. */
  lemma {:induction false} CandidatesDiffer(first: nat, size: nat, cursor: nat, n: nat)
    requires first <= cursor < first + size && n <= size
    ensures |Candidates(first, size, cursor, n)| == n
    decreases n
  {
    if n > 0 {
      CandidatesDiffer(first, size, cursor, n - 1);
      var last := Candidate(first, size, cursor, n - 1);
      assert Candidates(first, size, cursor, n) == Candidates(first, size, cursor, n - 1) + {last};
      forall k | 0 <= k < n - 1 ensures Candidate(first, size, cursor, k) != last {
        DifferentRemainders(cursor - first + k, cursor - first + n - 1, size);
      }
    }
  }

  lemma DifferentRemainders(a: nat, b: nat, size: nat)
    requires a < b < a + size
    ensures a % size != b % size
  {
    var turns := b / size - a / size;
    assert a == (a / size) * size + a % size && b == (b / size) * size + b % size;
    assert b - a == turns * size + (b % size - a % size) by {
      assert (b / size) * size - (a / size) * size == turns * size;
    }
    MultipleIsFar(turns, size);
  }

  /** A full turn visits every number of the range. */
  lemma CandidatesCover(first: nat, size: nat, cursor: nat, a: nat)
    requires first <= cursor < first + size && first <= a < first + size
    ensures exists k: nat :: k < size && Candidate(first, size, cursor, k) == a
  {
    var k := if a >= cursor then a - cursor else a - cursor + size;
    if a >= cursor {
      QuotientUnique(a - first, size, 0, a - first);
    } else {
      OneTurn(a - first, size);
      QuotientUnique(a - first, size, 0, a - first);
    }
    assert k < size && Candidate(first, size, cursor, k) == a;
  }

  /** Pigeonhole: fewer numbers in use than there are leaves a free one within that many tries. */
  lemma FreeCandidate(used: set<nat>, first: nat, size: nat, cursor: nat)
    requires first <= cursor < first + size && |used| < size
    ensures exists k: nat :: k <= |used| && Candidate(first, size, cursor, k) !in used
  {
    CandidatesDiffer(first, size, cursor, |used| + 1);
    var tried := Candidates(first, size, cursor, |used| + 1);
    if tried <= used {
      SubsetSize(tried, used);
    }
    var c :| c in tried && c !in used;
    var k :| 0 <= k < |used| + 1 && Candidate(first, size, cursor, k) == c;
  }

  /** The candidates are the cursor, then each its predecessor's successor. */
  lemma CandidatesFollow(first: nat, size: nat, cursor: nat, k: nat)
    requires first <= cursor < first + size
    ensures Candidate(first, size, cursor, 0) == cursor
    ensures Candidate(first, size, cursor, k + 1) == Next(first, size, Candidate(first, size, cursor, k))
  {
    QuotientUnique(cursor - first, size, 0, cursor - first);
    var a := cursor - first + k;
    var q, r := a / size, a % size;
    assert a == q * size + r;
    if r + 1 < size {
      QuotientUnique(a + 1, size, q, r + 1);
    } else {
      assert a + 1 == (q + 1) * size + 0;
      QuotientUnique(a + 1, size, q + 1, 0);
    }
  }
}
