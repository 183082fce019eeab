/** Whole runs of deploy, resume and delete, interrupted anywhere, and what holds throughout them. */
module DeployRuns {
  import opened DeployLog
  import opened Lifecycle
  import opened Strings
  import opened Wrappers

  datatype Command =
    | Slurm(args: DeployArgs, generated: Generated, cloud: Cloud)
    | Aks(args: DeployArgs, generated: Generated, cloud: Cloud)
    | Resume(cloud: Cloud)
    | Delete(resolution: Resolution, stateRemoved: bool, markerRemoved: bool)

  /** A command and the number of effects it gets to perform. */
  datatype Invocation = Invocation(command: Command, steps: nat)

  ghost predicate Begins(i: Invocation) {
    i.command.Slurm? || i.command.Aks?
  }

  ghost function NameOf(i: Invocation): string
    requires Begins(i)
  {
    i.command.generated.deployment
  }

  /** Attempts are named by their kind and the second they begin in; no two of them have one name. */
  ghost predicate DistinctNames(run: seq<Invocation>, log: seq<Event>) {
    && (forall i :: 0 <= i < |run| && Begins(run[i]) ==>
          run[i].command.generated.Valid() && !Attempted(log, NameOf(run[i])))
    && (forall i, j :: 0 <= i < j < |run| && Begins(run[i]) && Begins(run[j]) ==> NameOf(run[i]) != NameOf(run[j]))
  }

  method Invoke(c: Cluster, i: Invocation)
    requires c.Valid()
    requires Begins(i) ==> i.command.generated.Valid() && !Attempted(c.log, NameOf(i))
    modifies c
    ensures c.Valid() && old(c.history) <= c.history
    ensures forall d :: Attempted(c.log, d) ==> Attempted(old(c.log), d) || (Begins(i) && d == NameOf(i))
    ensures old(c.secrets).None? && old(c.marker).None? ==>
              PairFrom(c.secrets, c.marker, if SavesFirst(i) then Some(i) else None)
    ensures MysqlOf(c.secrets) ==
            if MysqlOf(old(c.secrets)).Some? then MysqlOf(old(c.secrets))
            else if Accounts(i, old(c.marker).Some?) then Some(i.command.generated.mysql) else None
  {
    hide Good, Keeps, Preserves, Attempted, Finishing, Stranded, Outstanding, DeployedAs, AfterAttempt;
    c.steps := i.steps;
    match i.command {
      case Slurm(args, generated, cloud) =>
        var _ := c.DeploySlurm(args, generated, cloud);
      case Aks(args, generated, cloud) =>
        var _ := c.DeployAks(args, generated, cloud);
      case Resume(cloud) =>
        var _ := c.Resume(cloud);
      case Delete(resolution, stateRemoved, markerRemoved) =>
        var found := if resolution.Cached? && c.state.None? then Unresolved else resolution;
        var _, _ := c.Delete(found, stateRemoved, markerRemoved);
    }
  }

  /** Any sequence of invocations, each stopped anywhere, keeps every state good and loses no secret. */
  method Run(c: Cluster, run: seq<Invocation>)
    requires c.Valid() && DistinctNames(run, c.log)
    modifies c
    ensures c.Valid() && old(c.history) <= c.history
  {
    for k := 0 to |run|
      invariant c.Valid() && old(c.history) <= c.history
      invariant DistinctNames(run[k..], c.log)
    {
      ghost var rest, before := run[k..], c.log;
      Invoke(c, run[k]);
      NamesStayDistinct(rest, before, c.log);
      assert rest[1..] == run[k + 1..];
    }
  }

  lemma NamesStayDistinct(run: seq<Invocation>, before: seq<Event>, after: seq<Event>)
    requires run != [] && DistinctNames(run, before)
    requires forall d :: Attempted(after, d) ==> Attempted(before, d) || (Begins(run[0]) && d == NameOf(run[0]))
    ensures DistinctNames(run[1..], after)
  {
    forall i | 0 <= i < |run[1..]| && Begins(run[1..][i])
      ensures run[1..][i].command.generated.Valid() && !Attempted(after, NameOf(run[1..][i]))
    {
      assert run[1..][i] == run[i + 1];
    }
  }

  // ---- Where the secrets of a new cluster come from ----

  /** Without secrets and marker, the invocation gets to save secrets. */
  predicate SavesFirst(i: Invocation) {
    i.steps > 0 && (i.command.Aks? || (i.command.Slurm? && !i.command.args.skipArm))
  }

  /** The first invocation of a new cluster that saves secrets. */
  function FirstSaver(run: seq<Invocation>): (first: Option<Invocation>)
    ensures first.Some? ==> first.value in run && SavesFirst(first.value)
  {
    if run == [] then None
    else if SavesFirst(run[0]) then Some(run[0]) else FirstSaver(run[1..])
  }

  /** A Slurm deploy with accounting that gets to save secrets; --skip-arm needs a marker for that. */
  predicate Accounts(i: Invocation, marked: bool) {
    i.steps > 0 && i.command.Slurm? && i.command.args.accounting && (i.command.args.skipArm ==> marked)
  }

  /** The first of those; `marked` says before which invocations there was a marker. */
  function FirstAccountant(run: seq<Invocation>, marked: seq<bool>): (first: Option<Invocation>)
    requires |marked| == |run|
    ensures first.Some? ==> first.value in run && first.value.command.Slurm?
  {
    if run == [] then None
    else if Accounts(run[0], marked[0]) then Some(run[0]) else FirstAccountant(run[1..], marked[1..])
  }

  function MysqlOf(secrets: Option<Secrets>): Option<string> {
    if secrets.Some? then secrets.value.mysql else None
  }

  /** Key pair and LDAP password are those generated for `first`; an AKS deploy generates no password. */
  ghost predicate PairFrom(secrets: Option<Secrets>, marker: Option<Marker>, first: Option<Invocation>) {
    match first
    case None => secrets.None? && marker.None?
    case Some(i) =>
      && SavesFirst(i) && secrets.Some?
      && secrets.value.publicKey == i.command.generated.publicKey
      && secrets.value.privateKey == i.command.generated.privateKey
      && secrets.value.ldap == (if i.command.Slurm? then i.command.generated.ldap else "")
  }

  lemma PairStays(c: Cluster, before: World, i: nat, first: Option<Invocation>)
    requires c.Valid() && i < |c.history| && c.history[i] == before && PairFrom(before.secrets, before.marker, first)
    requires first.Some? ==> first.value.command.generated.Valid()
    ensures first.Some? ==> PairFrom(c.secrets, c.marker, first)
  {
    hide Good;
    assert Keeps(c.history[i], c.history[|c.history| - 1]);
  }

  lemma {:induction false} FirstAccountantOfMore(run: seq<Invocation>, marked: seq<bool>, k: nat)
    requires k < |run| && |marked| == k + 1
    ensures FirstAccountant(run[..k + 1], marked) ==
            if FirstAccountant(run[..k], marked[..k]).Some? then FirstAccountant(run[..k], marked[..k])
            else if Accounts(run[k], marked[k]) then Some(run[k]) else None
  {
    hide Accounts;
    if k > 0 {
      FirstAccountantOfMore(run[1..], marked[1..], k - 1);
      assert run[..k + 1][1..] == run[1..][..k] && run[..k][1..] == run[1..][..k - 1];
      assert marked[..k][1..] == marked[1..][..k - 1];
    }
  }

  /** What submissions carry of the secrets of a run, in terms of what was generated. */
  ghost predicate SubmitsPairOf(e: Event, first: Invocation)
    requires SavesFirst(first) && Submits(e)
  {
    && e.params.publicKey == Trim(first.command.generated.publicKey)
    && (e.params.Slurm? ==>
          && e.params.ldap == (if first.command.Slurm? then first.command.generated.ldap else "")
          && (!e.params.accounting ==> e.params.mysql == ""))
  }

  /**
   From a new cluster, however invocations are stopped: the key pair is the one generated for the first
   invocation that saved secrets, and the LDAP password too when that was a Slurm deploy, while after an AKS
   deploy it is empty; the MySQL password is that of the first deploy with accounting that saved secrets; and
   every submission carries the public half of the pair and those passwords.
   */
  method RunFromNew(run: seq<Invocation>) returns (c: Cluster, marked: seq<bool>)
    requires DistinctNames(run, [])
    ensures c.Valid() && |marked| == |run|
    ensures PairFrom(c.secrets, c.marker, FirstSaver(run))
    ensures c.secrets.Some? ==> (c.secrets.value.ldap == "" <==> FirstSaver(run).value.command.Aks?)
    ensures match FirstAccountant(run, marked)
            case None => MysqlOf(c.secrets) == None
            case Some(i) => MysqlOf(c.secrets) == Some(i.command.generated.mysql)
    ensures forall e :: e in c.log && Submits(e) ==> FirstSaver(run).Some? && SubmitsPairOf(e, FirstSaver(run).value)
    ensures forall e :: e in c.log && Submits(e) && e.params.Slurm? && e.params.accounting ==>
              && FirstAccountant(run, marked).Some?
              && e.params.mysql == FirstAccountant(run, marked).value.command.generated.mysql
  {
    hide Good, Keeps, Preserves, SavesFirst, Accounts, PairFrom, MysqlOf, Trim;
    c := new Cluster(None);
    marked := [];
    NewHasNothing();
    ghost var first: Option<Invocation> := None;
    for k := 0 to |run|
      invariant fresh(c) && c.Valid() && |marked| == k
      invariant forall i :: k <= i < |run| && Begins(run[i]) ==> run[i].command.generated.Valid()
      invariant DistinctNames(run[k..], c.log)
      invariant PairFrom(c.secrets, c.marker, first)
      invariant first.Some? ==> first.value in run && Begins(first.value) && first.value.command.generated.Valid()
      invariant FirstSaver(run) == if first.Some? then first else FirstSaver(run[k..])
      invariant MysqlOf(c.secrets) == match FirstAccountant(run[..k], marked)
                                      case None => None
                                      case Some(i) => Some(i.command.generated.mysql)
    {
      ghost var rest, before, world, n := run[k..], c.log, c.Now(), |c.history| - 1;
      ghost var had := marked;
      marked := marked + [c.marker.Some?];
      Invoke(c, run[k]);
      NamesStayDistinct(rest, before, c.log);
      PairStays(c, world, n, first);
      NothingYet(world, first);
      FirstAccountantOfMore(run, marked, k);
      assert marked[..k] == had;
      SaverBegins(run[k]);
      if first.None? && SavesFirst(run[k]) {
        first := Some(run[k]);
      }
      assert rest[1..] == run[k + 1..];
    }
    assert run[..|run|] == run;
    PasswordOfPair(c, first);
    forall e | e in c.log && Submits(e)
      ensures first.Some? && SubmitsPairOf(e, first.value)
      ensures e.params.Slurm? && e.params.accounting ==> Some(e.params.mysql) == MysqlOf(c.secrets)
    {
      SubmitsSaved(c, e, first);
    }
  }

  lemma NewHasNothing()
    ensures PairFrom(None, None, None) && MysqlOf(None) == None
  {
  }

  lemma NothingYet(w: World, first: Option<Invocation>)
    requires PairFrom(w.secrets, w.marker, first)
    ensures first.None? ==> w.secrets.None? && w.marker.None?
  {
  }

  lemma SaverBegins(i: Invocation)
    ensures SavesFirst(i) ==> Begins(i)
  {
  }

  lemma PasswordOfPair(c: Cluster, first: Option<Invocation>)
    requires PairFrom(c.secrets, c.marker, first) && (first.Some? ==> first.value.command.generated.Valid())
    ensures c.secrets.Some? ==> first.Some? && (c.secrets.value.ldap == "" <==> first.value.command.Aks?)
  {
  }

  lemma SubmitsSaved(c: Cluster, e: Event, first: Option<Invocation>)
    requires c.Valid() && e in c.log && Submits(e) && PairFrom(c.secrets, c.marker, first)
    ensures first.Some? && SavesFirst(first.value) && SubmitsPairOf(e, first.value)
    ensures e.params.Slurm? && e.params.accounting ==> Some(e.params.mysql) == MysqlOf(c.secrets)
  {
    hide Trim;
    var k :| 0 <= k < |c.log| && c.log[k] == e;
    assert Good(c.Now()) && EventCarries(c.log[k], c.secrets);
  }

  // ---- What a history says ----

  ghost predicate Submits(e: Event) {
    e.Submitted? || e.WhatIf?
  }

  /**
   At every moment of every run, looking back and ahead: a password or complete key pair found in
   the secrets file is still there at any later moment, unchanged; and what any submission ever
   carried is what the file holds from then on.
   */
  lemma SecretsNeverChange(c: Cluster, i: nat, j: nat)
    requires c.Valid() && i <= j < |c.history|
    ensures c.history[i].secrets.Some? ==>
              && c.history[j].secrets.Some?
              && c.history[j].secrets.value.ldap == c.history[i].secrets.value.ldap
              && (c.history[i].secrets.value.mysql.Some? ==>
                    c.history[j].secrets.value.mysql == c.history[i].secrets.value.mysql)
              && (c.history[i].secrets.value.HasKeys() ==>
                    c.history[j].secrets.value.publicKey == c.history[i].secrets.value.publicKey
                    && c.history[j].secrets.value.privateKey == c.history[i].secrets.value.privateKey)
    ensures forall e :: e in c.history[i].log && Submits(e) ==> Carries(e.params, c.history[j].secrets)
  {
    hide Trim;
    assert Keeps(c.history[i], c.history[j]);
    forall e | e in c.history[i].log && Submits(e) ensures Carries(e.params, c.history[j].secrets) {
      var k :| 0 <= k < |c.history[i].log| && c.history[i].log[k] == e;
      assert c.history[j].log[k] == e;
      assert Good(c.history[j]) && EventCarries(c.history[j].log[k], c.history[j].secrets);
    }
  }

  /**
   Two submissions of one cluster, at whatever moments of whatever run, carry the same key and
   LDAP password, and the same MySQL password when both carry one.
   */
  lemma SubmissionsAgree(w: World, i: nat, j: nat)
    requires Good(w) && i < |w.log| && j < |w.log| && Submits(w.log[i]) && Submits(w.log[j])
    ensures w.log[i].params.publicKey == w.log[j].params.publicKey
    ensures w.log[i].params.Slurm? && w.log[j].params.Slurm? ==>
              && w.log[i].params.ldap == w.log[j].params.ldap
              && (w.log[i].params.accounting && w.log[j].params.accounting ==>
                    w.log[i].params.mysql == w.log[j].params.mysql)
  {
    hide Trim, WellLogged, MarkerSound, BundleSound;
    assert EventCarries(w.log[i], w.secrets) && EventCarries(w.log[j], w.secrets);
  }

  // ---- Recovery ----

  /** The marker names a deployment submitted as `target`, and no delete has gone astray since. */
  ghost predicate Recoverable(w: World, m: Marker, target: Target) {
    w.marker == Some(m) && DeployedAs(w.log, m.deployment, target) && !Stranded(w.log)
  }

  /** Finalized in `group`, with nothing outstanding and no marker left. */
  ghost predicate Recovered(w: World, group: string) {
    w.marker == None && w.state == Some(State(group)) && Outstanding(w.log).None? && !Stranded(w.log)
  }

  lemma StoppedFinalizeRecovers(m: Marker, log: seq<Event>, group: string, cloud: Cloud, before: World, after: World,
                                target: Target)
    requires Finishing(m, log, group, cloud, false, before, after)
    requires DeployedAs(log, m.deployment, target) && !Stranded(log)
    ensures Recoverable(after, m, target)
  {
    AfterEvent(log, Finalized(m.deployment));
    if after.log != log {
      var i :| 0 <= i < |log| && log[i].Submitted? && log[i].deployment == m.deployment
            && TargetOf(log[i].params) == target;
      assert after.log[i] == log[i];
    }
  }

  lemma SubmittedRecovers(w: World, log: seq<Event>, m: Marker, params: Params)
    requires w.marker == Some(m) && w.log == AfterAttempt(log, m.deployment, m.group, params)
    ensures Recoverable(w, m, TargetOf(params))
  {
    var marked := log + [MarkerSaved(m.deployment, m.group)];
    AfterEvent(marked, Submitted(m.deployment, m.group, params));
    assert w.log == marked + [Submitted(m.deployment, m.group, params)];
    assert w.log[|w.log| - 1] == Submitted(m.deployment, m.group, params);
  }

  /** An attempt submitted and finalized leaves nothing outstanding. */
  lemma FinalizedAttempt(log: seq<Event>, m: Marker, params: Params)
    ensures var after := AfterAttempt(log, m.deployment, m.group, params) + [Finalized(m.deployment)];
            Outstanding(after).None? && !Stranded(after)
  {
    var marked := log + [MarkerSaved(m.deployment, m.group)];
    var submitted := AfterAttempt(log, m.deployment, m.group, params);
    AfterEvent(marked, Submitted(m.deployment, m.group, params));
    assert submitted == marked + [Submitted(m.deployment, m.group, params)];
    AfterEvent(submitted, Finalized(m.deployment));
  }

  /** A deploy that gets as far as its submission finishes or can be recovered. */
  lemma SubmittedIsRecoverable(a: DeployArgs, steps: nat, saved: Secrets, m: Marker, params: Params, group: string,
                               finalizes: bool, cloud: Cloud, done: bool, before: World, after: World)
    requires Leaves(a, steps, saved, m, params, group, finalizes, cloud, done, before, after)
    requires !a.skipArm && !a.whatIf && steps >= 3
    ensures Recoverable(after, m, TargetOf(params)) || Recovered(after, group)
    ensures a.noWait ==> Recoverable(after, m, TargetOf(params))
  {
    hide AfterAttempt, Outstanding, Stranded, DeployedAs, TargetOf;
    var log := AfterAttempt(before.log, m.deployment, m.group, params);
    if a.noWait || !finalizes {
      SubmittedRecovers(after, before.log, m, params);
    } else if done {
      FinalizedAttempt(before.log, m, params);
    } else {
      SubmittedRecovers(World(None, Some(m), None, map[], log), before.log, m, params);
      StoppedFinalizeRecovers(m, log, group, cloud, before, after, TargetOf(params));
    }
  }

  /** One resume, stopped or not, on the way to recovery. */
  method ResumeOnce(c: Cluster, ghost m: Marker, cloud: Cloud)
    requires c.Valid() && (Recoverable(c.Now(), m, SlurmTarget) || Recovered(c.Now(), m.group))
    modifies c
    ensures c.Valid() && c.secrets == old(c.secrets)
    ensures Recoverable(c.Now(), m, SlurmTarget) || Recovered(c.Now(), m.group)
    ensures old(c.steps) >= 5 && cloud.succeeded && cloud.groupFound ==> Recovered(c.Now(), m.group)
  {
    hide Good, Preserves, Keeps, Outstanding, Stranded, DeployedAs, Finishing, Attempted;
    ghost var before := c.Now();
    var done := c.Resume(cloud);
    if !done && ResumeCompletes(before.marker, before.log, cloud) {
      StoppedFinalizeRecovers(m, before.log, m.group, cloud, before, c.Now(), SlurmTarget);
    }
  }

  /**
   What resume is for: a Slurm deploy that got as far as its submission, stopped anywhere after it or told
   not to wait, followed by any resumes, stopped anywhere too, is completed by a resume that is not stopped
   once the deployment has succeeded.
   */
  method SlurmRecovers(c: Cluster, a: DeployArgs, g: Generated, cloud: Cloud, resumes: seq<(nat, Cloud)>, last: Cloud)
    requires c.Valid() && g.Valid() && !Attempted(c.log, g.deployment)
    requires !a.skipArm && !a.whatIf && c.steps >= 3 && last.succeeded && last.groupFound
    modifies c
    ensures c.Valid() && Recovered(c.Now(), a.group)
    ensures c.secrets == Some(SlurmSecrets(old(c.secrets), a.accounting, g))
  {
    hide Good, Preserves, Keeps, Outstanding, Stranded;
    hide Attempted, SlurmSecrets, SlurmParams, Finishing, AfterAttempt, Untouched;
    hide Recoverable, Recovered, SlurmFinalizes, Completes;
    ghost var before, steps, m := c.Now(), c.steps, Marker(g.deployment, a.group, a.accounting);
    ghost var saved := SlurmSecrets(before.secrets, a.accounting, g);
    var done := c.DeploySlurm(a, g, cloud);
    SubmittedIsRecoverable(a, steps, saved, m, SlurmParams(saved, a.accounting), a.group,
                           SlurmFinalizes(a, before.marker, before.log, cloud), cloud, done, before, c.Now());
    for i := 0 to |resumes|
      invariant c.Valid() && c.secrets == Some(saved)
      invariant Recoverable(c.Now(), m, SlurmTarget) || Recovered(c.Now(), m.group)
    {
      c.steps := resumes[i].0;
      ResumeOnce(c, m, resumes[i].1);
    }
    c.steps := 5;
    ResumeOnce(c, m, last);
  }

  /** One AKS deploy with --skip-arm, stopped or not, on the way to recovery. */
  method SkipArmOnce(c: Cluster, ghost m: Marker, b: DeployArgs, h: Generated, cloud: Cloud)
    requires c.Valid() && (Recoverable(c.Now(), m, AksTarget) || Recovered(c.Now(), m.group))
    requires b.skipArm && !b.whatIf && !b.noWait && cloud.outputGroup == Some(m.group)
    requires h.Valid() && !Attempted(c.log, h.deployment) && c.secrets.Some? && c.secrets.value.HasKeys()
    modifies c
    ensures c.Valid() && c.secrets == old(c.secrets)
    ensures !Attempted(c.log, h.deployment)
    ensures Recoverable(c.Now(), m, AksTarget) || Recovered(c.Now(), m.group)
    ensures old(c.steps) >= 8 && cloud.succeeded && cloud.installs && cloud.vault.Some? ==> Recovered(c.Now(), m.group)
  {
    hide Good, Preserves, Keeps, Outstanding, Stranded, DeployedAs, Attempted, AksParams, Finishing, AfterAttempt;
    ghost var before, saved := c.Now(), AksSecrets(c.secrets, h);
    var done := c.DeployAks(b, h, cloud);
    if !done && AksFinalizes(b, before.marker, before.log, cloud) {
      StoppedFinalizeRecovers(m, before.log, m.group, cloud, before, c.Now(), AksTarget);
    }
  }

  /** The same for an AKS deploy, which deploys with --skip-arm complete. The outputs name the group deployed in. */
  method AksRecovers(c: Cluster, a: DeployArgs, g: Generated, cloud: Cloud, b: DeployArgs, h: Generated,
                     retries: seq<(nat, Cloud)>, last: Cloud)
    requires c.Valid() && g.Valid() && !Attempted(c.log, g.deployment)
    requires h.Valid() && !Attempted(c.log, h.deployment) && h.deployment != g.deployment
    requires !a.skipArm && !a.whatIf && c.steps >= 3 && b.skipArm && !b.whatIf && !b.noWait
    requires cloud.outputGroup == last.outputGroup == Some(a.group)
    requires forall i :: 0 <= i < |retries| ==> retries[i].1.outputGroup == Some(a.group)
    requires last.succeeded && last.installs && last.vault.Some?
    modifies c
    ensures c.Valid() && Recovered(c.Now(), a.group)
    ensures c.secrets == Some(AksSecrets(old(c.secrets), g))
  {
    hide Good, Preserves, Keeps, Outstanding, Stranded;
    hide Attempted, AksSecrets, AksParams, Finishing, AfterAttempt, Untouched;
    hide Recoverable, Recovered, AksFinalizes, Completes;
    ghost var before, steps, m := c.Now(), c.steps, Marker(g.deployment, a.group, false);
    ghost var saved := AksSecrets(before.secrets, g);
    AksSecretsKept(before.secrets, g);
    var done := c.DeployAks(a, g, cloud);
    SubmittedIsRecoverable(a, steps, saved, m, AksParams(saved), a.group,
                           AksFinalizes(a, before.marker, before.log, cloud), cloud, done, before, c.Now());
    for i := 0 to |retries|
      invariant c.Valid() && c.secrets == Some(saved) && !Attempted(c.log, h.deployment)
      invariant Recoverable(c.Now(), m, AksTarget) || Recovered(c.Now(), m.group)
    {
      c.steps := retries[i].0;
      SkipArmOnce(c, m, b, h, retries[i].1);
    }
    c.steps := 8;
    SkipArmOnce(c, m, b, h, last);
  }

  // ---- Where the code falls short ----

  const LOTS := 100

  /** Everything goes well, without a vault. */
  const FINE := Cloud(true, None, None, true, true, true)

  /**
   Delete takes the resource group from the saved state while the marker may name an attempt in
   another one: a cluster finalized in one group, redeployed into a second without waiting, then
   deleted, leaves the second deployment outstanding without a marker to resume it by.
   */
  method DeleteCanStrand(first: Generated, second: Generated, group: string, otherGroup: string) returns (c: Cluster)
    requires first.Valid() && second.Valid() && first.deployment != second.deployment && group != otherGroup
    ensures c.Valid() && c.marker == None && c.state == None
    ensures Outstanding(c.log) == Some((second.deployment, otherGroup)) && Stranded(c.log)
  {
    hide Good, Preserves, Outstanding, Stranded, Keeps;
    c := new Cluster(None);
    c.steps := LOTS;
    var done := c.DeploySlurm(DeployArgs(group, false, false, false, false), first, FINE);
    c.steps := LOTS;
    done := c.DeploySlurm(DeployArgs(otherGroup, false, false, true, false), second, FINE);
    c.steps := LOTS;
    var deleted;
    deleted, done := c.Delete(Cached, true, true);
  }

  /**
   An AKS deploy saves an empty LDAP password, and a later Slurm deploy of the same cluster
   reuses it as if it had been generated.
   */
  method AksFirstLeavesEmptyLdap(first: Generated, second: Generated, group: string) returns (c: Cluster)
    requires first.Valid() && second.Valid() && first.deployment != second.deployment
    ensures c.Valid() && c.secrets.Some? && c.secrets.value.ldap == ""
    ensures exists e :: e in c.log && e.Submitted? && e.deployment == second.deployment
                        && e.params.Slurm? && e.params.ldap == ""
  {
    hide Good, Preserves, Outstanding, Stranded, Keeps, Trim;
    c := new Cluster(None);
    c.steps := LOTS;
    var done := c.DeployAks(DeployArgs(group, false, false, true, false), first, FINE);
    c.steps := LOTS;
    done := c.DeploySlurm(DeployArgs(group, false, false, true, false), second, FINE);
    assert c.log[|c.log| - 1] in c.log;
  }

  /**
   The marker does not say what was submitted, and resume finalizes as Slurm: after an AKS deploy
   without waiting no resume ever gets anywhere, whatever the outside answers and however far it runs.
   */
  method ResumeNeverFinishesAks(first: Generated, group: string, resumes: seq<(nat, Cloud)>) returns (c: Cluster)
    requires first.Valid()
    ensures c.Valid() && c.marker == Some(Marker(first.deployment, group, false)) && c.state == None
    ensures Outstanding(c.log) == Some((first.deployment, group)) && DeployedAs(c.log, first.deployment, AksTarget)
  {
    hide Good, Preserves, Outstanding, Stranded, Keeps, Attempted;
    c := new Cluster(None);
    NothingAttempted(first.deployment);
    c.steps := LOTS;
    var done := c.DeployAks(DeployArgs(group, false, false, true, false), first, FINE);
    ghost var before := c.Now();
    AksIsNotSlurm(before, first.deployment, group, AksParams(c.secrets.value));
    for i := 0 to |resumes|
      invariant fresh(c) && c.Valid() && c.Now() == before
    {
      c.steps := resumes[i].0;
      done := c.Resume(resumes[i].1);
    }
  }

  lemma NothingAttempted(deployment: string)
    ensures !Attempted([], deployment)
  {
  }

  lemma AksIsNotSlurm(w: World, deployment: string, group: string, params: Params)
    requires Good(w) && params.Aks? && w.log == AfterAttempt([], deployment, group, params)
    ensures DeployedAs(w.log, deployment, AksTarget) && !DeployedAs(w.log, deployment, SlurmTarget)
  {
    hide Good;
    assert w.log[1] == Submitted(deployment, group, params);
    OneTarget(w, deployment);
  }

  /**
   With --skip-arm the resource group comes from the arguments: a deployment submitted in one group
   is finalized with a state that names another, which delete then removes, and nothing is outstanding.
   */
  method SkipArmCanMisname(first: Generated, second: Generated, group: string, otherGroup: string) returns (c: Cluster)
    requires first.Valid() && second.Valid() && first.deployment != second.deployment && group != otherGroup
    ensures c.Valid() && c.marker == None && Outstanding(c.log).None? && !Stranded(c.log)
    ensures SubmittedIn(c.log, first.deployment, group) && GroupDeleted(group) !in c.log
            && GroupDeleted(otherGroup) in c.log
  {
    hide Good, Preserves, Outstanding, Stranded, Keeps;
    hide Attempted, AfterAttempt, SubmittedIn, SlurmReady, SlurmSecrets, SlurmParams;
    c := new Cluster(None);
    NothingAttempted(first.deployment);
    NothingAttempted(second.deployment);
    c.steps := LOTS;
    var done := c.DeploySlurm(DeployArgs(group, false, false, true, false), first, FINE);
    ghost var params := SlurmParams(c.secrets.value, false);
    NewlyReady([], first.deployment, group, params, FINE);
    c.steps := LOTS;
    done := c.DeploySlurm(DeployArgs(otherGroup, false, true, false, false), second, FINE);
    c.steps := LOTS;
    var deleted;
    deleted, done := c.Delete(Cached, true, true);
    MisnamedLog(c.log, first.deployment, group, params, otherGroup);
  }

  lemma MisnamedLog(log: seq<Event>, deployment: string, group: string, params: Params, otherGroup: string)
    requires log == AfterAttempt([], deployment, group, params) + [Finalized(deployment)] + [GroupDeleted(otherGroup)]
    requires group != otherGroup
    ensures SubmittedIn(log, deployment, group) && GroupDeleted(group) !in log && GroupDeleted(otherGroup) in log
  {
    assert log[1] == Submitted(deployment, group, params) && log[3] == GroupDeleted(otherGroup);
  }
}
