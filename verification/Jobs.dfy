/** The jobs of a rotation's two loops, for either mode. */
module Jobs {
  import opened Paths

  /** One turn of the ADD or the REMOVE loop, with what fails during it. */
  datatype Move<F> = Job(sha: string, dir: Direction, faults: F)

  ghost predicate Mentions<F>(jobs: seq<Move<F>>, s: string) {
    exists i :: 0 <= i < |jobs| && jobs[i].sha == s
  }

  ghost predicate DistinctJobs<F>(jobs: seq<Move<F>>) {
    forall i, j :: 0 <= i < j < |jobs| ==> jobs[i].sha != jobs[j].sha
  }

  /** Promotions come before demotions. */
  ghost predicate AddsFirst<F>(jobs: seq<Move<F>>) {
    forall i, j :: 0 <= i < j < |jobs| && jobs[i].dir.Demote? ==> jobs[j].dir.Demote?
  }

  /** The ADD loop's jobs, then the REMOVE loop's, one for each planned sha. */
  ghost predicate CarryOut<F>(jobs: seq<Move<F>>, adds: set<string>, removes: set<string>) {
    && DistinctJobs(jobs) && AddsFirst(jobs)
    && (forall i :: 0 <= i < |jobs| ==> jobs[i].sha in if jobs[i].dir.Promote? then adds else removes)
    && (forall s :: s in adds + removes ==> Mentions(jobs, s))
  }

  /** The rest of the jobs says nothing about what the first was for. */
  lemma NotAgain<F>(jobs: seq<Move<F>>, s: string)
    requires jobs != [] && DistinctJobs(jobs) && (s == jobs[0].sha || !Mentions(jobs, s))
    ensures DistinctJobs(jobs[1..]) && !Mentions(jobs[1..], s)
  {
    forall i | 0 <= i < |jobs[1..]| ensures jobs[1..][i].sha != s { assert jobs[i + 1] == jobs[1..][i]; }
  }

  /** The jobs chosen by what they are and whether they were done, by number. */
  function Chosen<F>(jobs: seq<Move<F>>, done: nat -> bool, choose: (Move<F>, bool) -> bool): set<nat> {
    set i: nat | i < |jobs| && choose(jobs[i], done(i))
  }

  /** One job more. */
  lemma ChosenNext<F>(jobs: seq<Move<F>>, done: nat -> bool, front: nat -> bool, choose: (Move<F>, bool) -> bool)
    requires jobs != [] && forall i :: 0 <= i < |jobs| - 1 ==> front(i) == done(i)
    ensures var n := |jobs| - 1;
            |Chosen(jobs, done, choose)| ==
            |Chosen(jobs[..n], front, choose)| + if choose(jobs[n], done(n)) then 1 else 0
  {
    var n := |jobs| - 1;
    var a, b := Chosen(jobs[..n], front, choose), Chosen(jobs, done, choose);
    forall i: nat ensures i in b <==> i in a || (i == n && choose(jobs[n], done(n))) {
      if i < n { assert jobs[..n][i] == jobs[i]; }
    }
    assert b == if choose(jobs[n], done(n)) then a + {n} else a;
  }
}
