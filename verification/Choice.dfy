/** Which column or which cell the solvers of lab1 take next: the scan for a small size. */
module Choice {
  /** The choice: all sizes before it are larger and above one, and it is at most one or the least. */
  ghost predicate Chosen(sizes: seq<int>, k: nat) {
    && k < |sizes|
    && (forall t | 0 <= t < k :: sizes[t] > 1 && sizes[t] > sizes[k])
    && (sizes[k] <= 1 || forall t | 0 <= t < |sizes| :: sizes[k] <= sizes[t])
  }

  /** The scan for it, with the first j sizes seen. */
  ghost predicate Scanned(sizes: seq<int>, j: nat, k: nat) {
    && k < j <= |sizes| && sizes[k] > 1
    && (forall t | 0 <= t < k :: sizes[t] > sizes[k])
    && (forall t | 0 <= t < j :: sizes[t] >= sizes[k])
  }

  lemma FirstChosen(sizes: seq<int>)
    requires sizes != [] && sizes[0] <= 1
    ensures Chosen(sizes, 0)
  {
  }

  lemma ScanStarts(sizes: seq<int>)
    requires sizes != [] && sizes[0] > 1
    ensures Scanned(sizes, 1, 0)
  {
  }

  lemma ScanNext(sizes: seq<int>, j: nat, k: nat)
    requires Scanned(sizes, j, k) && j < |sizes|
    ensures k < j && if sizes[k] <= sizes[j] then Scanned(sizes, j + 1, k)
                     else if sizes[j] <= 1 then Chosen(sizes, j) else Scanned(sizes, j + 1, j)
  {
  }

  lemma ScanEnds(sizes: seq<int>, k: nat)
    requires Scanned(sizes, |sizes|, k)
    ensures Chosen(sizes, k)
  {
  }

  /** That settles the choice. */
  lemma ChosenOnce(sizes: seq<int>, j: nat, k: nat)
    requires Chosen(sizes, j) && Chosen(sizes, k)
    ensures j == k
  {
  }

  /** It is a least one if and only if nothing behind it is smaller; sizes 1 and 0 show that it need not be. */
  lemma ChosenNotLeast()
    ensures Chosen([1, 0], 0) && [1, 0][1] < [1, 0][0]
  {
  }
}
