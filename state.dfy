/** The per-deployment build tracker handed to every protocol recipe: a declared step budget,
    a progress counter on which an increment at or past the budget has no effect, the
    operator-facing stage label, and a named artifact store. */
module State {

  /** One increment of the counter: it advances by one while it is below the budget and
      otherwise stays where it is. */
  function Bumped(p: nat, total: int): (q: nat)
    ensures p <= q <= p + 1
    ensures q == p + 1 <==> p < total
  {
    if p < total then p + 1 else p
  }

  /** The counter after `k` increments starting from `p`. */
  function Bumps(p: nat, total: int, k: nat): (q: nat)
    ensures p <= q <= p + k
  {
    if k == 0 then p else Bumped(Bumps(p, total, k - 1), total)
  }

  function Min(a: int, b: int): int
  {
    if a <= b then a else b
  }

  /** The counter `k` steps on from `p`, in closed form: `p + k` cut off at the budget; a
      counter already at or past the budget does not move. */
  function Advanced(p: nat, total: int, k: nat): nat
  {
    if p >= total then p else Min(p + k, total)
  }

  /** `k` single increments amount to the closed form. */
  lemma {:induction false} BumpsClosedForm(p: nat, total: int, k: nat)
    ensures Bumps(p, total, k) == Advanced(p, total, k)
  {
    if k > 0 {
      BumpsClosedForm(p, total, k - 1);
    }
  }

  /** Increments compose: `a` increments followed by `b` more are `a + b` increments. */
  lemma BumpsAdd(p: nat, total: int, a: nat, b: nat)
    ensures Bumps(Bumps(p, total, a), total, b) == Bumps(p, total, a + b)
  {
    BumpsClosedForm(p, total, a);
    BumpsClosedForm(Bumps(p, total, a), total, b);
    BumpsClosedForm(p, total, a + b);
  }

  /** One more increment moves the closed form one step on. */
  lemma AdvancedStep(p: nat, total: int, k: nat)
    ensures Bumped(Advanced(p, total, k), total) == Advanced(p, total, k + 1)
  {
  }

  /** The closed form composes like the increments it stands for. */
  lemma AdvancedAdd(p: nat, total: int, a: nat, b: nat)
    ensures Advanced(Advanced(p, total, a), total, b) == Advanced(p, total, a + b)
  {
  }

  /** A counter that starts within the budget stays within it, however many increments
      follow. (Lowering the budget below the counter is not covered: the counter then stays
      where it is, above the new budget.) */
  lemma BumpsWithinBudget(p: nat, total: int, k: nat)
    requires p <= total
    ensures Bumps(p, total, k) <= total
  {
    BumpsClosedForm(p, total, k);
  }

  /** A counter that starts at zero ends at the number of increments, unless that exceeds
      the budget, in which case it ends at the budget. */
  lemma BumpsFromZero(total: nat, k: nat)
    ensures Bumps(0, total, k) == Min(k, total)
    ensures k <= total ==> Bumps(0, total, k) == k
  {
    BumpsClosedForm(0, total, k);
  }

  class BuildState {
    var buildSteps: int
    var progress: nat
    var stage: string
    var files: map<string, string>

    /** A fresh tracker: no budget, no progress, no stage, no artifacts. */
    constructor ()
      ensures buildSteps == 0 && progress == 0 && stage == "" && files == map[]
    {
      buildSteps := 0;
      progress := 0;
      stage := "";
      files := map[];
    }

    /** Declares the step budget. */
    method SetBuildSteps(steps: int)
      modifies this
      ensures buildSteps == steps
      ensures progress == old(progress) && stage == old(stage) && files == old(files)
    {
      buildSteps := steps;
    }

    /** Records one completed unit of work. */
    method IncrementBuildProgress()
      modifies this
      ensures progress == Bumped(old(progress), buildSteps)
      ensures buildSteps == old(buildSteps) && stage == old(stage) && files == old(files)
    {
      progress := Bumped(progress, buildSteps);
    }

    /** Records the current phase; the last label written wins. */
    method SetBuildStage(name: string)
      modifies this
      ensures stage == name
      ensures buildSteps == old(buildSteps) && progress == old(progress) && files == old(files)
    {
      stage := name;
    }

    /** Stores a named artifact, replacing any earlier one of the same name. */
    method Write(name: string, content: string)
      modifies this
      ensures files == old(files)[name := content]
      ensures buildSteps == old(buildSteps) && progress == old(progress) && stage == old(stage)
    {
      files := files[name := content];
    }
  }
}
