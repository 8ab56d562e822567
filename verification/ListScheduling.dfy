/** Greedy list scheduling onto workers that start with staggered loads, and Graham's bound.
    Times are in nanoseconds. */
module ListScheduling {

  /** A task of length `eta` given to worker number `worker`. */
  datatype Placement = Placement(worker: nat, eta: nat)

  /** Consecutive workers start one microsecond apart. */
  const STAGGER: nat := 1000

  function Load(placed: seq<Placement>, worker: nat): nat {
    if placed == [] then 0
    else Load(placed[1..], worker) + (if placed[0].worker == worker then placed[0].eta else 0)
  }

  function Total(placed: seq<Placement>): nat {
    if placed == [] then 0 else placed[0].eta + Total(placed[1..])
  }

  function Longest(placed: seq<Placement>): nat {
    if placed == [] then 0
    else
      var rest := Longest(placed[1..]);
      if rest < placed[0].eta then placed[0].eta else rest
  }

  function SumOf(s: seq<int>): int {
    if s == [] then 0 else s[0] + SumOf(s[1..])
  }

  /** The loads of workers 0 to n - 1. */
  function Loads(placed: seq<Placement>, n: nat): (s: seq<int>)
    ensures |s| == n
  {
    seq(n, i requires 0 <= i < n => Load(placed, i))
  }

  /** `eta` of every worker: its offset and its load. */
  function Etas(placed: seq<Placement>, n: nat): (s: seq<int>)
    ensures |s| == n
  {
    seq(n, i requires 0 <= i < n => STAGGER * i + Load(placed, i))
  }

  ghost predicate Within(placed: seq<Placement>, n: nat) {
    forall p | p in placed :: p.worker < n
  }

  /** Each task went to a worker whose `eta` was least when it was placed. */
  ghost predicate Greedy(placed: seq<Placement>, n: nat) {
    forall j | 0 <= j < |placed| ::
      placed[j].worker < n &&
      forall i | 0 <= i < n ::
        Etas(placed[..j], n)[placed[j].worker] <= Etas(placed[..j], n)[i]
  }

  // ---------------------------------------------------------------------------------------
  // Adding a task
  // ---------------------------------------------------------------------------------------

  lemma {:induction false} LoadSnoc(placed: seq<Placement>, p: Placement, worker: nat)
    ensures Load(placed + [p], worker)
         == Load(placed, worker) + (if p.worker == worker then p.eta else 0)
  {
    if placed == [] {
      assert placed + [p] == [p];
    } else {
      assert (placed + [p])[1..] == placed[1..] + [p];
      LoadSnoc(placed[1..], p, worker);
    }
  }

  lemma {:induction false} TotalSnoc(placed: seq<Placement>, p: Placement)
    ensures Total(placed + [p]) == Total(placed) + p.eta
    ensures Longest(placed + [p]) == if Longest(placed) < p.eta then p.eta else Longest(placed)
  {
    if placed == [] {
      assert placed + [p] == [p];
    } else {
      assert (placed + [p])[1..] == placed[1..] + [p];
      TotalSnoc(placed[1..], p);
    }
  }

  lemma {:induction false} SumOfUpdate(s: seq<int>, i: nat, v: int)
    requires i < |s|
    ensures SumOf(s[i := v]) == SumOf(s) + v - s[i]
  {
    if i == 0 {
      assert s[0 := v][1..] == s[1..];
    } else {
      assert s[i := v][1..] == s[1..][i - 1 := v];
      SumOfUpdate(s[1..], i - 1, v);
    }
  }

  lemma {:induction false} SumOfAtLeast(s: seq<int>, low: int)
    requires forall i | 0 <= i < |s| :: low <= s[i]
    ensures |s| * low <= SumOf(s)
  {
    if s != [] {
      SumOfAtLeast(s[1..], low);
      assert |s| * low == low + (|s| - 1) * low;
    }
  }

  lemma {:induction false} SumOfAtMost(s: seq<int>, high: int)
    requires forall i | 0 <= i < |s| :: s[i] <= high
    ensures SumOf(s) <= |s| * high
  {
    if s != [] {
      SumOfAtMost(s[1..], high);
      assert |s| * high == high + (|s| - 1) * high;
    }
  }

  lemma {:induction false} LoadsSum(placed: seq<Placement>, n: nat)
    requires Within(placed, n)
    ensures SumOf(Loads(placed, n)) == Total(placed)
  {
    if placed == [] {
      SumOfAtMost(Loads([], n), 0);
      SumOfAtLeast(Loads([], n), 0);
    } else {
      var p, rest := placed[0], placed[1..];
      assert p in placed;
      LoadsSum(rest, n);
      assert Loads(placed, n) == Loads(rest, n)[p.worker := Load(rest, p.worker) + p.eta];
      SumOfUpdate(Loads(rest, n), p.worker, Load(rest, p.worker) + p.eta);
    }
  }

  /** The offsets sum to STAGGER * n(n-1)/2, written without the division. */
  lemma {:induction false} EtasSum(placed: seq<Placement>, n: nat)
    ensures 2 * SumOf(Etas(placed, n)) == 2 * SumOf(Loads(placed, n)) + STAGGER * (n * (n - 1))
  {
    if n > 0 {
      EtasSum(placed, n - 1);
      assert Etas(placed, n) == Etas(placed, n - 1) + [STAGGER * (n - 1) + Load(placed, n - 1)];
      assert Loads(placed, n) == Loads(placed, n - 1) + [Load(placed, n - 1)];
      SumOfSnoc(Etas(placed, n - 1), STAGGER * (n - 1) + Load(placed, n - 1));
      SumOfSnoc(Loads(placed, n - 1), Load(placed, n - 1));
      assert n * (n - 1) == (n - 1) * (n - 2) + 2 * (n - 1);
    }
  }

  lemma {:induction false} SumOfSnoc(s: seq<int>, v: int)
    ensures SumOf(s + [v]) == SumOf(s) + v
  {
    if s == [] {
      assert s + [v] == [v];
    } else {
      assert (s + [v])[1..] == s[1..] + [v];
      SumOfSnoc(s[1..], v);
    }
  }

  lemma EtasSnoc(placed: seq<Placement>, p: Placement, n: nat)
    requires p.worker < n
    ensures Etas(placed + [p], n)
         == Etas(placed, n)[p.worker := Etas(placed, n)[p.worker] + p.eta]
  {
    forall i | 0 <= i < n
      ensures Etas(placed + [p], n)[i]
           == Etas(placed, n)[p.worker := Etas(placed, n)[p.worker] + p.eta][i]
    {
      LoadSnoc(placed, p, i);
    }
  }

  // ---------------------------------------------------------------------------------------
  // The bounds
  // ---------------------------------------------------------------------------------------

  function Max(a: int, b: int): int {
    if a < b then b else a
  }

  lemma GreedyPrefix(placed: seq<Placement>, n: nat)
    requires placed != [] && Greedy(placed, n)
    ensures Greedy(placed[..|placed| - 1], n)
  {
    var init := placed[..|placed| - 1];
    forall j | 0 <= j < |init| ensures init[..j] == placed[..j] && init[j] == placed[j] {}
  }

  /** Any two etas differ by at most the longest task, or by the initial stagger. */
  lemma {:induction false} Spread(placed: seq<Placement>, n: nat, i: nat, j: nat)
    requires Greedy(placed, n) && i < n && j < n
    ensures Etas(placed, n)[i] - Etas(placed, n)[j] <= Max(Longest(placed), STAGGER * (n - 1))
  {
    if placed != [] {
      var init, p := placed[..|placed| - 1], placed[|placed| - 1];
      assert placed == init + [p];
      GreedyPrefix(placed, n);
      EtasSnoc(init, p, n);
      TotalSnoc(init, p);
      Spread(init, n, i, j);
      assert Etas(init, n)[p.worker] <= Etas(init, n)[j];
    }
  }

  lemma AddedTask(n: nat, least: int, eta: nat, sum: int, longest: int)
    requires 0 < n && n * least <= sum && eta <= longest
    ensures n * (least + eta) <= (sum + eta) + (n - 1) * longest
  {
    Scale(n - 1, eta, longest);
    assert n * (least + eta) == n * least + ((n - 1) * eta + eta);
  }

  /** A loaded worker's eta, times n, stays within the sum of all etas and n - 1 longest tasks. */
  lemma {:induction false} LoadedBound(placed: seq<Placement>, n: nat, i: nat)
    requires Greedy(placed, n) && i < n
    ensures Load(placed, i) == 0 ||
            n * Etas(placed, n)[i] <= SumOf(Etas(placed, n)) + (n - 1) * Longest(placed)
  {
    if placed != [] {
      var init, p := placed[..|placed| - 1], placed[|placed| - 1];
      assert placed == init + [p];
      GreedyPrefix(placed, n);
      EtasSnoc(init, p, n);
      TotalSnoc(init, p);
      LoadSnoc(init, p, i);
      LoadedBound(init, n, i);
      var e := Etas(init, n);
      SumOfUpdate(e, p.worker, e[p.worker] + p.eta);
      Scale(n - 1, Longest(init), Longest(placed));
      if i == p.worker {
        SumOfAtLeast(e, e[i]);
        AddedTask(n, e[i], p.eta, SumOf(e), Longest(placed));
      }
    }
  }

  lemma Scale(k: nat, a: int, b: int)
    requires a <= b
    ensures k * a <= k * b
  {
  }

  /** `other` gives the same tasks, in the same order, to possibly different workers. */
  ghost predicate SameTasks(placed: seq<Placement>, other: seq<Placement>) {
    |placed| == |other| && forall j | 0 <= j < |placed| :: placed[j].eta == other[j].eta
  }

  lemma {:induction false} SameTasksTotals(placed: seq<Placement>, other: seq<Placement>)
    requires SameTasks(placed, other)
    ensures Total(placed) == Total(other) && Longest(placed) == Longest(other)
  {
    if placed != [] { SameTasksTotals(placed[1..], other[1..]); }
  }

  lemma {:induction false} LongestIsLoaded(placed: seq<Placement>, n: nat, makespan: nat)
    requires Within(placed, n)
    requires forall i | 0 <= i < n :: Load(placed, i) <= makespan
    ensures Longest(placed) <= makespan
  {
    if placed != [] {
      assert placed[0] in placed;
      assert Load(placed, placed[0].worker) <= makespan;
      assert forall i | 0 <= i < n :: Load(placed[1..], i) <= Load(placed, i);
      LongestIsLoaded(placed[1..], n, makespan);
    }
  }

  /** Graham's bound with staggered starts. Against any other assignment of the same tasks to the
      n workers, with makespan M, every greedy load L satisfies
      n * L <= (2n - 1) * M + STAGGER * n(n-1)/2. */
  lemma GrahamBound(placed: seq<Placement>, other: seq<Placement>, n: nat, i: nat, makespan: nat)
    requires Greedy(placed, n) && i < n
    requires SameTasks(placed, other) && Within(other, n)
    requires forall k | 0 <= k < n :: Load(other, k) <= makespan
    ensures 2 * n * Load(placed, i) <= 2 * (2 * n - 1) * makespan + STAGGER * (n * (n - 1))
  {
    if Load(placed, i) > 0 {
      assert Within(placed, n) by {
        forall p | p in placed ensures p.worker < n {
          var j :| 0 <= j < |placed| && placed[j] == p;
        }
      }
      LoadedBound(placed, n, i);
      EtasSum(placed, n);
      LoadsSum(placed, n);
      SameTasksTotals(placed, other);
      LoadsSum(other, n);
      SumOfAtMost(Loads(other, n), makespan);
      LongestIsLoaded(other, n, makespan);
      GrahamArithmetic(n, Load(placed, i), Etas(placed, n)[i], SumOf(Etas(placed, n)),
                       Longest(placed), Total(placed), makespan, STAGGER * (n * (n - 1)));
    } else {
      NoLoad(n, makespan);
    }
  }

  lemma NoLoad(n: nat, makespan: nat)
    requires 0 < n
    ensures 0 <= 2 * (2 * n - 1) * makespan && 0 <= n * (n - 1)
  {
  }

  lemma GrahamArithmetic(n: nat, load: nat, eta: int, sum: int, longest: int, total: int,
                         makespan: nat, stagger: int)
    requires 0 < n && load <= eta && longest <= makespan && total <= n * makespan
    requires n * eta <= sum + (n - 1) * longest
    requires 2 * sum == 2 * total + stagger
    ensures 2 * n * load <= 2 * (2 * n - 1) * makespan + stagger
  {
    Scale(n, load, eta);
    Scale(n - 1, longest, makespan);
    assert (n - 1) * makespan == n * makespan - makespan;
    assert 2 * (2 * n - 1) * makespan == 4 * (n * makespan) - 2 * makespan;
    assert 2 * n * load == 2 * (n * load);
  }
}
