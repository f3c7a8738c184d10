/** `runOneTimeJob`: apply a job, poll it until it has failed or succeeded,
    then follow its logs and fail unless it succeeded.  The poll answers
    are an input sequence; when it runs out before the job is decided the
    run is still polling. */
module K8sJob {
  import opened Common
  import opened Manifests
  import opened Proc
  import opened K8s

  /** One week, the time a finished job is kept. */
  const JobTtl: int := 7 * 24 * 60 * 60

  /** The job `runOneTimeJob(name, pod)` applies: no retries, kept a week. */
  function JobManifest(name: string, pod: PodSpec): (r: Manifest)
    ensures r.Kind() == "Job" && r.metadata.name == name && r.status == None
    ensures r.jobSpec == JobSpec(0, pod, 604800)
  {
    JobObject(Metadata(name, None, None), JobSpec(0, pod, JobTtl), None)
  }

  /** A status counter is truthy when it is defined and not 0. */
  predicate Truthy(counter: Option<int>)
  {
    counter.Some? && counter.value != 0
  }

  /** The status of what `getResource` returned, read as a job; anything
      else has none. */
  function StatusOf(m: Manifest): Option<JobStatus>
  {
    if m.JobObject? then m.status else None
  }

  /** What one poll tells the loop. */
  datatype Verdict = Pending | Succeeded | JobFailedVerdict | GetError(error: Error)

  /** One poll: errors other than "not found" propagate, an absent job or a
      job with neither counter truthy keeps the loop going, and `failed` is
      looked at before `succeeded`. */
  function Observe(name: string, out: GetOutput): (v: Verdict)
    ensures v.GetError? <==> ClassifyGet("job", name, out).Err?
    ensures v == Succeeded || v == JobFailedVerdict ==>
      out.code == 0 && out.parsed.Some? && out.parsed.value.JobObject? && out.parsed.value.status.Some?
    ensures v == JobFailedVerdict ==> Truthy(out.parsed.value.status.value.failed)
    ensures v == Succeeded ==>
      Truthy(out.parsed.value.status.value.succeeded) && !Truthy(out.parsed.value.status.value.failed)
  {
    match ClassifyGet("job", name, out)
    case Err(e) => GetError(e)
    case Ok(None) => Pending
    case Ok(Some(m)) =>
      var status := StatusOf(m);
      if status.Some? && Truthy(status.value.failed) then JobFailedVerdict
      else if status.Some? && Truthy(status.value.succeeded) then Succeeded
      else Pending
  }

  /** A job whose `failed` counter is truthy has failed, whatever `succeeded` says. */
  lemma FailedCheckedFirst(name: string, out: GetOutput, s: JobStatus)
    requires out.code == 0 && out.parsed.Some? && out.parsed.value.JobObject?
    requires out.parsed.value.status == Some(s) && Truthy(s.failed)
    ensures Observe(name, out) == JobFailedVerdict
  {
  }

  /** The first poll from `i` on that decides the loop; `|polls|` if none does. */
  function FirstDecisive(name: string, polls: seq<GetOutput>, i: nat): (k: nat)
    requires i <= |polls|
    ensures i <= k <= |polls|
    ensures forall j :: i <= j < k ==> Observe(name, polls[j]) == Pending
    ensures k < |polls| ==> Observe(name, polls[k]) != Pending
    decreases |polls| - i
  {
    if i == |polls| then i
    else if Observe(name, polls[i]) != Pending then i
    else FirstDecisive(name, polls, i + 1)
  }

  /** `FirstDecisive` is the first index whose poll decides. */
  lemma {:induction false} FirstDecisiveFrom(name: string, polls: seq<GetOutput>, i: nat, k: nat)
    requires i <= k <= |polls|
    requires forall j :: i <= j < k ==> Observe(name, polls[j]) == Pending
    requires k < |polls| ==> Observe(name, polls[k]) != Pending
    ensures FirstDecisive(name, polls, i) == k
    decreases k - i
  {
    if i < k {
      FirstDecisiveFrom(name, polls, i + 1, k);
    }
  }

  lemma FirstDecisiveIs(name: string, polls: seq<GetOutput>, k: nat)
    requires k <= |polls|
    requires forall j :: 0 <= j < k ==> Observe(name, polls[j]) == Pending
    requires k < |polls| ==> Observe(name, polls[k]) != Pending
    ensures FirstDecisive(name, polls, 0) == k
  {
    FirstDecisiveFrom(name, polls, 0, k);
  }

  function LogsCall(ns: Namespace, name: string): Call
  {
    KubectlCall(ns, ["logs", "--tail", "50", "-f", "-l", "job-name=" + name], false)
  }

  function JobGet(ns: Namespace, name: string): Call
  {
    GetCall(ns, "job", name)
  }

  /** `n` polls of the job. */
  function Gets(ns: Namespace, name: string, n: nat): (cs: seq<Call>)
    ensures |cs| == n && forall j :: 0 <= j < n ==> cs[j] == JobGet(ns, name)
  {
    seq(n, _ => JobGet(ns, name))
  }

  /** The run of `runOneTimeJob(name, pod)` when the apply exits with
      `applyCode`, the polls answer `polls` in turn and following the logs
      exits with `logsCode`. */
  function OneTimeJob(ns: Namespace, name: string, pod: PodSpec, applyCode: int,
                      polls: seq<GetOutput>, logsCode: int): (r: Run)
    ensures |r.calls| >= 1 && r.calls[0] == ApplyCall(ns.context, ns.namespace, JobManifest(name, pod))
    ensures r.outcome == Done ==> applyCode == 0 && logsCode == 0
  {
    var apply := Apply(ns, JobManifest(name, pod), applyCode);
    var k := FirstDecisive(name, polls, 0);
    if apply.outcome != Done then apply
    else if k == |polls| then Run(apply.calls + Gets(ns, name, k), Polling)
    else
      var calls := apply.calls + Gets(ns, name, k + 1);
      var verdict := Observe(name, polls[k]);
      match verdict
      case GetError(e) => Run(calls, Failed(e))
      case _ =>
        var logs := Checked(LogsCall(ns, name), ExecCheck, logsCode);
        if logs.outcome != Done then Run(calls + logs.calls, logs.outcome)
        else if verdict == Succeeded then Run(calls + logs.calls, Done)
        else Run(calls + logs.calls, Failed(JobFailed(name)))
  }

  /** `runOneTimeJob` as the loop it is: poll until a poll decides, then
      follow the logs, then fail unless the job succeeded. */
  method RunOneTimeJob(ns: Namespace, name: string, pod: PodSpec, applyCode: int,
                       polls: seq<GetOutput>, logsCode: int) returns (run: Run)
    ensures run == OneTimeJob(ns, name, pod, applyCode, polls, logsCode)
  {
    var apply := Apply(ns, JobManifest(name, pod), applyCode);
    if apply.outcome != Done {
      return apply;
    }
    var calls := apply.calls;
    var success := false;
    var decided := false;
    var i := 0;
    while i < |polls|
      invariant 0 <= i <= |polls|
      invariant forall j :: 0 <= j < i ==> Observe(name, polls[j]) == Pending
      invariant calls == apply.calls + Gets(ns, name, i)
      invariant !decided && !success
    {
      calls := calls + [JobGet(ns, name)];
      var job := ClassifyGet("job", name, polls[i]);
      if job.Err? {
        FirstDecisiveIs(name, polls, i);
        assert calls == apply.calls + Gets(ns, name, i + 1);
        return Run(calls, Failed(job.error));
      }
      if job.value.Some? {
        var status := StatusOf(job.value.value);
        if status.Some? && Truthy(status.value.failed) {
          decided := true;
          break;
        } else if status.Some? && Truthy(status.value.succeeded) {
          success := true;
          decided := true;
          break;
        }
      }
      assert calls == apply.calls + Gets(ns, name, i + 1);
      i := i + 1;
    }
    FirstDecisiveIs(name, polls, i);
    if !decided {
      return Run(calls, Polling);
    }
    assert calls == apply.calls + Gets(ns, name, i + 1);
    var logs := Checked(LogsCall(ns, name), ExecCheck, logsCode);
    calls := calls + logs.calls;
    if logs.outcome != Done {
      return Run(calls, logs.outcome);
    }
    if !success {
      return Run(calls, Failed(JobFailed(name)));
    }
    return Run(calls, Done);
  }

  /** Every call of the job's run targets the namespace, unless the job's
      name is itself a flag. */
  lemma OneTimeJobInScope(ns: Namespace, name: string, pod: PodSpec, applyCode: int,
                          polls: seq<GetOutput>, logsCode: int)
    requires !IsFlag(name)
    ensures forall c :: c in OneTimeJob(ns, name, pod, applyCode, polls, logsCode).calls ==> InScope(ns, c)
  {
    ApplyScope(ns, JobManifest(name, pod));
    GetScope(ns, "job", name);
    LogsWordsScopeFree(name);
    KubectlScope(ns, ["logs", "--tail", "50", "-f", "-l", "job-name=" + name], false);
  }

  /** Following the logs names no scope of its own, whatever the job's name. */
  lemma LogsWordsScopeFree(name: string)
    ensures var ws := ["logs", "--tail", "50", "-f", "-l", "job-name=" + name];
      forall i :: 0 <= i < |ws| ==> !ScopeFlag(ws[i])
  {
    var ws := ["logs", "--tail", "50", "-f", "-l", "job-name=" + name];
    forall i | 0 <= i < |ws| ensures !ScopeFlag(ws[i]) {
      if i == 0 { assert ws[i] == "logs"; }
      else if i == 1 { assert ws[i] == "--tail"; }
      else if i == 2 { assert ws[i] == "50"; }
      else if i == 3 { assert ws[i] == "-f"; assert ws[i][1..] == "f"; }
      else if i == 4 { assert ws[i] == "-l"; assert ws[i][1..] == "l"; }
      else { assert ws[i][0] == 'j'; }
    }
  }

  /** The loop stops at the first poll that decides: the job is polled once
      per answer up to and including that one, and never again. */
  lemma NoPollAfterDecision(ns: Namespace, name: string, pod: PodSpec, applyCode: int,
                            polls: seq<GetOutput>, more: seq<GetOutput>, logsCode: int)
    requires FirstDecisive(name, polls, 0) < |polls|
    ensures OneTimeJob(ns, name, pod, applyCode, polls + more, logsCode)
         == OneTimeJob(ns, name, pod, applyCode, polls, logsCode)
  {
    var k := FirstDecisive(name, polls, 0);
    forall j | 0 <= j <= k ensures (polls + more)[j] == polls[j] { }
    FirstDecisiveIs(name, polls + more, k);
  }

  /** While no poll decides, the loop keeps polling: one more undecided
      answer is one more poll and nothing else. */
  lemma PendingKeepsPolling(ns: Namespace, name: string, pod: PodSpec,
                            polls: seq<GetOutput>, logsCode: int)
    requires forall j :: 0 <= j < |polls| ==> Observe(name, polls[j]) == Pending
    ensures OneTimeJob(ns, name, pod, 0, polls, logsCode)
         == Run([ApplyCall(ns.context, ns.namespace, JobManifest(name, pod))] + Gets(ns, name, |polls|), Polling)
  {
    FirstDecisiveIs(name, polls, |polls|);
  }

  /** Once the job has failed or succeeded, its logs are followed, as the
      last call, and the run ends normally exactly when the job succeeded
      and following the logs did. */
  lemma LogsAfterDecision(ns: Namespace, name: string, pod: PodSpec, applyCode: int,
                          polls: seq<GetOutput>, logsCode: int)
    requires applyCode == 0
    requires FirstDecisive(name, polls, 0) < |polls|
    requires !Observe(name, polls[FirstDecisive(name, polls, 0)]).GetError?
    ensures var k := FirstDecisive(name, polls, 0);
      var r := OneTimeJob(ns, name, pod, applyCode, polls, logsCode);
      && r.calls == [ApplyCall(ns.context, ns.namespace, JobManifest(name, pod))] + Gets(ns, name, k + 1) + [LogsCall(ns, name)]
      && (r.outcome == Done <==> Observe(name, polls[k]) == Succeeded && logsCode == 0)
      && (logsCode == 0 && Observe(name, polls[k]) == JobFailedVerdict ==> r.outcome == Failed(JobFailed(name)))
  {
  }

  /** The run ends normally only when the apply, a poll reporting success
      and the logs all went through. */
  lemma OneTimeJobDone(ns: Namespace, name: string, pod: PodSpec, applyCode: int,
                       polls: seq<GetOutput>, logsCode: int)
    ensures OneTimeJob(ns, name, pod, applyCode, polls, logsCode).outcome == Done <==>
      && applyCode == 0 && logsCode == 0
      && FirstDecisive(name, polls, 0) < |polls|
      && Observe(name, polls[FirstDecisive(name, polls, 0)]) == Succeeded
  {
  }
}
