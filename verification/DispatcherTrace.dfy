/** The account a run gives of itself: what the port has received, what it refused, what is with the kernel and what
    submitters have run, read off the steps alone. */
module DispatcherTrace {
  import opened DispatcherModel

  /** What a step brings to the port: a callback posted, completed by the kernel, or queued for an operation that
      has succeeded at once. */
  function Brings(a: Step): seq<nat> {
    match a
    case Post(id, ok) => if ok then [id] else []
    case KernelCompletes(id) => [id]
    case SubmitInline(id, skip) => if skip then [] else [id]
    case _ => []
  }

  function Refuses(a: Step): multiset<nat> { if a.Post? && !a.ok then multiset{a.id} else multiset{} }

  function Pends(a: Step): multiset<nat> { if a.SubmitPends? then multiset{a.id} else multiset{} }

  function Completes(a: Step): multiset<nat> { if a.KernelCompletes? then multiset{a.id} else multiset{} }

  function RunsHere(a: Step): seq<nat> { if a.SubmitFails? || a.SubmitInline? then [a.id] else [] }

  function Brought(steps: seq<Step>): seq<nat> {
    if steps == [] then [] else Brings(steps[0]) + Brought(steps[1..])
  }

  function Refused(steps: seq<Step>): multiset<nat> {
    if steps == [] then multiset{} else Refuses(steps[0]) + Refused(steps[1..])
  }

  function Pended(steps: seq<Step>): multiset<nat> {
    if steps == [] then multiset{} else Pends(steps[0]) + Pended(steps[1..])
  }

  function Completed(steps: seq<Step>): multiset<nat> {
    if steps == [] then multiset{} else Completes(steps[0]) + Completed(steps[1..])
  }

  function RunBySubmitters(steps: seq<Step>): seq<nat> {
    if steps == [] then [] else RunsHere(steps[0]) + RunBySubmitters(steps[1..])
  }

  /** The handlers begun that submitters began. */
  function BySubmitter(invoked: seq<nat>, runners: seq<Runner>): seq<nat>
    requires |invoked| == |runners|
  {
    if invoked == [] then []
    else
      var n := |invoked| - 1;
      BySubmitter(invoked[..n], runners[..n]) + if runners[n].Submitter? then [invoked[n]] else []
  }

  lemma BySubmitterAppend(invoked: seq<nat>, runners: seq<Runner>, id: nat, r: Runner)
    requires |invoked| == |runners|
    ensures BySubmitter(invoked + [id], runners + [r])
         == BySubmitter(invoked, runners) + if r.Submitter? then [id] else []
  {
    assert (invoked + [id])[..|invoked|] == invoked && (runners + [r])[..|runners|] == runners;
  }

  lemma StepBrings(s: State, a: Step)
    requires Enabled(s, a)
    ensures Next(s, a).arrivals == s.arrivals + Brings(a)
  {
    assert s.arrivals + [] == s.arrivals;
  }

  lemma StepRefuses(s: State, a: Step)
    requires Enabled(s, a)
    ensures Next(s, a).leaked == s.leaked + Refuses(a)
  {
    assert s.leaked + multiset{} == s.leaked;
  }

  lemma StepPends(s: State, a: Step)
    requires Enabled(s, a)
    ensures Next(s, a).pending + Completes(a) == s.pending + Pends(a)
  {
    if a.SubmitPends? {
      assert Next(s, a).pending + multiset{} == Next(s, a).pending;
    } else if a.KernelCompletes? {
      assert Next(s, a).pending + multiset{a.id} == s.pending == s.pending + multiset{};
    }
  }

  lemma StepAccountsForRunners(s: State, a: Step)
    requires Enabled(s, a) && |s.invoked| == |s.runners|
    ensures var t := Next(s, a);
            && |t.invoked| == |t.runners|
            && BySubmitter(t.invoked, t.runners) == BySubmitter(s.invoked, s.runners) + RunsHere(a)
  {
    if a.SubmitFails? || a.SubmitInline? {
      BySubmitterAppend(s.invoked, s.runners, a.id, Submitter);
    } else if a.Begin? {
      var x := s.workers[a.w];
      BySubmitterAppend(s.invoked, s.runners, x.batch[x.next], ByWorker(a.w));
    }
  }

  lemma Regroup(a: seq<nat>, b: seq<nat>, c: seq<nat>)
    ensures a + b + c == a + (b + c)
  {
  }

  lemma PendingAccounts(a: multiset<nat>, b: multiset<nat>, c: multiset<nat>, p: multiset<nat>, q: multiset<nat>,
                        ps: multiset<nat>, qs: multiset<nat>)
    requires b + q == a + p && c + qs == b + ps
    ensures c + (q + qs) == a + (p + ps)
  {
    assert c + (q + qs) == c + qs + q == b + ps + q == b + q + ps == a + p + ps;
  }

  /** Over every run, hazards included: the port has received what was posted to it and what completed, in this
      order, and leaked is what it refused. */
  lemma {:induction false} PortAccounts(s: State, steps: seq<Step>)
    requires Runs(s, steps)
    ensures After(s, steps).arrivals == s.arrivals + Brought(steps)
    ensures After(s, steps).leaked == s.leaked + Refused(steps)
    decreases |steps|
  {
    if steps == [] {
    } else {
      var t, rest := Next(s, steps[0]), steps[1..];
      StepBrings(s, steps[0]);
      StepRefuses(s, steps[0]);
      PortAccounts(t, rest);
      Regroup(s.arrivals, Brings(steps[0]), Brought(rest));
      assert s.leaked + Refuses(steps[0]) + Refused(rest) == s.leaked + (Refuses(steps[0]) + Refused(rest));
    }
  }

  /** The kernel has what was left pending and has not completed. */
  lemma {:induction false} KernelAccounts(s: State, steps: seq<Step>)
    requires Runs(s, steps)
    ensures After(s, steps).pending + Completed(steps) == s.pending + Pended(steps)
    decreases |steps|
  {
    if steps == [] {
    } else {
      var t, rest := Next(s, steps[0]), steps[1..];
      StepPends(s, steps[0]);
      KernelAccounts(t, rest);
      PendingAccounts(s.pending, t.pending, After(t, rest).pending, Pends(steps[0]), Completes(steps[0]),
                      Pended(rest), Completed(rest));
    }
  }

  /** Submitters have run what failed or succeeded at once, in this order. */
  lemma {:induction false} SubmitterAccounts(s: State, steps: seq<Step>)
    requires Runs(s, steps) && |s.invoked| == |s.runners|
    ensures var t := After(s, steps);
            && |t.invoked| == |t.runners|
            && BySubmitter(t.invoked, t.runners) == BySubmitter(s.invoked, s.runners) + RunBySubmitters(steps)
    decreases |steps|
  {
    if steps == [] {
    } else {
      StepAccountsForRunners(s, steps[0]);
      SubmitterAccounts(Next(s, steps[0]), steps[1..]);
      Regroup(BySubmitter(s.invoked, s.runners), RunsHere(steps[0]), RunBySubmitters(steps[1..]));
    }
  }

  /** From the start, the account is the steps' own. */
  lemma TraceAccounts(workers: nat, steps: seq<Step>)
    requires Runs(Initial(workers), steps)
    ensures var t := After(Initial(workers), steps);
            && t.arrivals == Brought(steps) && t.leaked == Refused(steps)
            && t.pending + Completed(steps) == Pended(steps)
            && |t.invoked| == |t.runners| && BySubmitter(t.invoked, t.runners) == RunBySubmitters(steps)
  {
    PortAccounts(Initial(workers), steps);
    KernelAccounts(Initial(workers), steps);
    SubmitterAccounts(Initial(workers), steps);
  }
}
