/** Continuations of a run, for the results that say what can happen. */
module Paths {
  import opened Blocks
  import opened CoreSpec
  import opened Safety
  import opened Protocol

  /** Every step is as the theorems assume, except what concerns the one block `exempt`. */
  predicate AssumedBut(s: System, step: Step, exempt: Option<Block>) {
    || Assumed(s, step)
    || ((step.Receive? || step.Deliver?) && exempt == Some(step.b) && Height(step.b) < VHEIGHT_MODULUS)
  }

  ghost predicate LeadsVia(p: Params, s: System, s': System, exempt: Option<Block>,
                           run: seq<System>, steps: seq<Step>)
  {
    && IsPath(p, run, steps) && run[0] == s && run[|run| - 1] == s'
    && forall i | 0 <= i < |steps| :: AssumedBut(run[i], steps[i], exempt)
  }

  ghost predicate Leads(p: Params, s: System, s': System, exempt: Option<Block>) {
    exists run, steps :: LeadsVia(p, s, s', exempt, run, steps)
  }

  lemma LeadsToItself(p: Params, s: System, exempt: Option<Block>)
    ensures Leads(p, s, s, exempt)
  {
    assert LeadsVia(p, s, s, exempt, [s], []);
  }

  lemma LeadsFurther(p: Params, s: System, s1: System, exempt: Option<Block>, step: Step)
    requires Leads(p, s, s1, exempt) && Enabled(p, s1, step) && AssumedBut(s1, step, exempt)
    ensures Leads(p, s, Apply(p, s1, step), exempt)
  {
    var run, steps :| LeadsVia(p, s, s1, exempt, run, steps);
    var s2 := Apply(p, s1, step);
    var run', steps' := run + [s2], steps + [step];
    forall i | 0 <= i < |steps'|
      ensures Enabled(p, run'[i], steps'[i]) && run'[i + 1] == Apply(p, run'[i], steps'[i])
      ensures AssumedBut(run'[i], steps'[i], exempt)
    {
      if i < |steps| {
        assert run'[i] == run[i] && run'[i + 1] == run[i + 1] && steps'[i] == steps[i];
      } else {
        assert run'[i] == s1;
      }
    }
    assert LeadsVia(p, s, s2, exempt, run', steps');
  }

  /** Without an exempt block, what the initial state leads to is the end of a good run. */
  lemma GoodRunTo(p: Params, s: System) returns (run: seq<System>, steps: seq<Step>)
    requires ValidParams(p) && Leads(p, Init(p), s, None)
    ensures GoodRun(p, run, steps) && run[|run| - 1] == s
  {
    run, steps :| LeadsVia(p, Init(p), s, None, run, steps);
  }
}
