/**
 Deploy, resume and delete as step-by-step changes of local files, ARM and Key Vault. An
 invocation may stop between any two steps: `steps` counts the effects it still performs before a
 crash, or before an error that ends the command, which leaves the same things behind. One
 invocation runs at a time and a file write is atomic.
 */
module Lifecycle {
  import opened DeployLog
  import opened Strings
  import opened Wrappers

  datatype DeployArgs = DeployArgs(
    /** Resource group given or derived from the cluster name. */
    group: string,
    accounting: bool, skipArm: bool, noWait: bool, whatIf: bool)

  /** What an attempt would generate: its name (from the clock), passwords and key pair. */
  datatype Generated = Generated(deployment: string, ldap: string, mysql: string, publicKey: string,
                                 privateKey: string) {
    predicate Valid() {
      ldap != "" && mysql != "" && publicKey != "" && privateKey != ""
    }
  }

  /**
   What the outside answers one invocation about the deployment it waits for or reads: whether it
   has succeeded (only then are there outputs), the vault and the group its outputs name; and
   whether its resource group is found, the AKS operators install, and the vault takes uploads.
   */
  datatype Cloud = Cloud(
    succeeded: bool, vault: Option<string>, outputGroup: Option<string>,
    groupFound: bool, installs: bool, accepts: bool)

  /** A deployment has the outputs finalizing as Slurm needs: its scheduler's address is one of the Slurm template. */
  predicate SlurmReady(log: seq<Event>, deployment: string, cloud: Cloud) {
    DeployedAs(log, deployment, SlurmTarget) && cloud.succeeded
  }

  /** A deployment has the outputs finalizing as AKS needs: the AKS cluster's name and its vault. */
  predicate AksReady(log: seq<Event>, deployment: string, cloud: Cloud) {
    DeployedAs(log, deployment, AksTarget) && cloud.succeeded && cloud.installs && cloud.vault.Some?
  }

  /** A deploy that gets as far as finalizing is not refused there. */
  predicate SlurmFinalizes(a: DeployArgs, marker: Option<Marker>, log: seq<Event>, cloud: Cloud) {
    if a.skipArm then marker.Some? && SlurmReady(log, marker.value.deployment, cloud) else cloud.succeeded
  }

  predicate AksFinalizes(a: DeployArgs, marker: Option<Marker>, log: seq<Event>, cloud: Cloud) {
    if a.skipArm then marker.Some? && AksReady(log, marker.value.deployment, cloud)
    else cloud.succeeded && cloud.installs && cloud.vault.Some?
  }

  /** A deploy that is not stopped reaches its end. */
  predicate Completes(a: DeployArgs, marker: Option<Marker>, finalizes: bool) {
    (a.skipArm ==> marker.Some?) && (a.whatIf || a.noWait || finalizes)
  }

  predicate SlurmCompletes(a: DeployArgs, marker: Option<Marker>, log: seq<Event>, cloud: Cloud) {
    Completes(a, marker, SlurmFinalizes(a, marker, log, cloud))
  }

  predicate AksCompletes(a: DeployArgs, marker: Option<Marker>, log: seq<Event>, cloud: Cloud) {
    Completes(a, marker, AksFinalizes(a, marker, log, cloud))
  }

  predicate ResumeCompletes(marker: Option<Marker>, log: seq<Event>, cloud: Cloud) {
    marker.Some? && SlurmReady(log, marker.value.deployment, cloud) && cloud.groupFound
  }

  /**
   What completing takes, all told: unless it stops before finalizing, a deploy needs its deployment to have
   succeeded, and an AKS deploy also the operators and a vault; what it skips to or resumes must be in the
   marker and have been submitted as the same kind.
   */
  lemma CompletesExactly(a: DeployArgs, marker: Option<Marker>, log: seq<Event>, cloud: Cloud)
    ensures SlurmCompletes(a, marker, log, cloud) <==>
            && (a.skipArm ==> marker.Some?)
            && (!a.whatIf && !a.noWait ==>
                  cloud.succeeded && (a.skipArm ==> SubmittedAs(log, marker.value.deployment, true)))
    ensures AksCompletes(a, marker, log, cloud) <==>
            && (a.skipArm ==> marker.Some?)
            && (!a.whatIf && !a.noWait ==>
                  && cloud.succeeded && cloud.installs && cloud.vault.Some?
                  && (a.skipArm ==> SubmittedAs(log, marker.value.deployment, false)))
    ensures ResumeCompletes(marker, log, cloud) <==>
            marker.Some? && SubmittedAs(log, marker.value.deployment, true) && cloud.succeeded && cloud.groupFound
  {
    if marker.Some? {
      SubmittedAsExactly(log, marker.value.deployment);
    }
  }

  ghost predicate SubmittedAs(log: seq<Event>, deployment: string, slurm: bool) {
    exists group, params :: Submitted(deployment, group, params) in log && params.Slurm? == slurm
  }

  lemma SubmittedAsExactly(log: seq<Event>, deployment: string)
    ensures DeployedAs(log, deployment, SlurmTarget) <==> SubmittedAs(log, deployment, true)
    ensures DeployedAs(log, deployment, AksTarget) <==> SubmittedAs(log, deployment, false)
  {
    forall i | 0 <= i < |log| && log[i].Submitted? && log[i].deployment == deployment
      ensures Submitted(deployment, log[i].group, log[i].params) in log
    {
    }
  }

  // ---- What a command leaves, finished or stopped ----

  predicate Untouched(before: World, after: World) {
    after.marker == before.marker && after.state == before.state && after.vaults == before.vaults
  }

  /** At most the local secrets have been uploaded, to the vault the outputs name. */
  predicate OldOrUploaded(before: map<string, Secrets>, after: map<string, Secrets>, bundle: Option<Secrets>,
                          cloud: Cloud) {
    || after == before
    || (cloud.vault.Some? && cloud.accepts && bundle.Some? && after == before[cloud.vault.value := bundle.value])
  }

  /** A finalize of the marker `m`, finished or stopped: state, vault, log and marker change in this order. */
  predicate Finishing(m: Marker, log: seq<Event>, group: string, cloud: Cloud, done: bool, before: World,
                      after: World) {
    && after.marker == (if done then None else Some(m))
    && (after.log == log + [Finalized(m.deployment)] || (!done && after.log == log))
    && (|| after.state == Some(State(group))
        || (after.state == before.state && after.log == log && after.vaults == before.vaults))
    && OldOrUploaded(before.vaults, after.vaults, after.secrets, cloud)
  }

  /**
   A deploy given `steps` effects that saves `saved`, and unless told otherwise saves the marker `m`
   and submits it; `finalizes` says whether finalizing is refused.
   */
  predicate Leaves(a: DeployArgs, steps: nat, saved: Secrets, m: Marker, params: Params, group: string, finalizes: bool,
                   cloud: Cloud, done: bool, before: World, after: World) {
    && after.secrets == (if steps == 0 then before.secrets else Some(saved))
    && if a.whatIf then
         Untouched(before, after) && after.log == (if done then before.log + [WhatIf(params)] else before.log)
       else if a.skipArm then
         if a.noWait || before.marker.None? || !finalizes then Untouched(before, after) && after.log == before.log
         else Finishing(before.marker.value, before.log, group, cloud, done, before, after)
       else if steps <= 1 then Untouched(before, after) && after.log == before.log
       else if steps == 2 then
         && Untouched(before.(marker := Some(m)), after)
         && after.log == before.log + [MarkerSaved(m.deployment, m.group)]
       else if a.noWait || !finalizes then
         && Untouched(before.(marker := Some(m)), after)
         && after.log == AfterAttempt(before.log, m.deployment, m.group, params)
       else
         Finishing(m, AfterAttempt(before.log, m.deployment, m.group, params), group, cloud, done, before, after)
  }

  /** How delete finds the cluster: its cached state, its manifest in the vault, or not at all. */
  datatype Resolution = Cached | FromVault(state: State) | Unresolved

  class Cluster {
    var secrets: Option<Secrets>
    var marker: Option<Marker>
    var state: Option<State>
    var vaults: map<string, Secrets>
    var log: seq<Event>
    /** Effects left before the running invocation stops. */
    var steps: nat
    /** Every state of files and cloud so far, oldest first. */
    ghost var history: seq<World>

    ghost function Now(): World
      reads this
    {
      World(secrets, marker, state, vaults, log)
    }

    /** Every state so far was good, and no later state lost what an earlier one had. */
    ghost predicate Valid()
      reads this
    {
      && history != [] && history[|history| - 1] == Now()
      && (forall i :: 0 <= i < |history| ==> Good(history[i]))
      && (forall i, j :: 0 <= i <= j < |history| ==> Keeps(history[i], history[j]))
    }

    /** A laptop that may hold a secrets file of an earlier version, and no deployment under way. */
    constructor (existing: Option<Secrets>)
      ensures Valid()
      ensures Now() == World(existing, None, None, map[], [])
    {
      secrets, marker, state, vaults, log := existing, None, None, map[], [];
      steps := 0;
      history := [World(existing, None, None, map[], [])];
    }

    // ---- Single effects ----

    ghost method Record()
      requires history != [] && Good(Now()) && Keeps(history[|history| - 1], Now())
      requires forall i :: 0 <= i < |history| ==> Good(history[i])
      requires forall i, j :: 0 <= i <= j < |history| ==> Keeps(history[i], history[j])
      modifies this`history
      ensures Valid() && history == old(history) + [Now()]
    {
      hide Good, Preserves;
      var last := history[|history| - 1];
      forall i | 0 <= i < |history| ensures Keeps(history[i], Now()) {
        assert Keeps(history[i], last);
        PreservesTransitive(history[i].secrets, last.secrets, secrets);
      }
      assert Keeps(Now(), Now()) by {
        PreservesItself(secrets);
      }
      history := history + [Now()];
    }

    method SaveSecrets(s: Secrets) returns (alive: bool)
      requires Valid() && Preserves(secrets, Some(s))
      modifies this`secrets, this`steps, this`history
      ensures Valid() && alive == (old(steps) > 0) && old(history) <= history
      ensures alive ==> secrets == Some(s) && steps == old(steps) - 1
      ensures !alive ==> secrets == old(secrets) && steps == 0 && history == old(history)
    {
      hide Good;
      if steps == 0 {
        return false;
      }
      SecretsKept(Now(), s);
      assert Good(Now());
      secrets, steps := Some(s), steps - 1;
      Record();
      return true;
    }

    /** Saves the marker of a new attempt. */
    method SaveMarker(m: Marker) returns (alive: bool)
      requires Valid() && !Attempted(log, m.deployment)
      requires m.accounting ==> secrets.Some? && secrets.value.mysql.Some?
      modifies this`marker, this`log, this`steps, this`history
      ensures Valid() && alive == (old(steps) > 0) && old(history) <= history
      ensures alive ==>
                marker == Some(m) && log == old(log) + [MarkerSaved(m.deployment, m.group)] && steps == old(steps) - 1
      ensures !alive ==> marker == old(marker) && log == old(log) && steps == 0 && history == old(history)
    {
      hide Good;
      if steps == 0 {
        return false;
      }
      var e := MarkerSaved(m.deployment, m.group);
      AfterEvent(log, e);
      LogGrows(Now(), e, Some(m));
      log, marker, steps := log + [e], Some(m), steps - 1;
      Record();
      return true;
    }

    /** PUTs the deployment whose marker has just been saved. */
    method Submit(deployment: string, group: string, params: Params) returns (alive: bool)
      requires Valid() && Carries(params, secrets)
      requires marker.Some? && log != [] && log[|log| - 1] == MarkerSaved(deployment, group)
      modifies this`log, this`steps, this`history
      ensures Valid() && alive == (old(steps) > 0) && old(history) <= history
      ensures alive ==> log == old(log) + [Submitted(deployment, group, params)] && steps == old(steps) - 1
      ensures !alive ==> log == old(log) && steps == 0 && history == old(history)
    {
      hide Carries;
      alive := Append(Submitted(deployment, group, params));
    }

    method AskWhatIf(params: Params) returns (alive: bool)
      requires Valid() && Carries(params, secrets)
      modifies this`log, this`steps, this`history
      ensures Valid() && alive == (old(steps) > 0) && old(history) <= history
      ensures alive ==> log == old(log) + [WhatIf(params)] && steps == old(steps) - 1
      ensures !alive ==> log == old(log) && steps == 0 && history == old(history)
    {
      hide Carries;
      alive := Append(WhatIf(params));
    }

    method Append(e: Event) returns (alive: bool)
      requires Valid() && EventCarries(e, secrets) && !e.MarkerSaved?
      requires e.Submitted? ==> marker.Some? && log != [] && log[|log| - 1] == MarkerSaved(e.deployment, e.group)
      modifies this`log, this`steps, this`history
      ensures Valid() && alive == (old(steps) > 0) && old(history) <= history
      ensures alive ==> log == old(log) + [e] && steps == old(steps) - 1
      ensures !alive ==> log == old(log) && steps == 0 && history == old(history)
    {
      hide EventCarries, WellLogged, BundleSound;
      if steps == 0 {
        return false;
      }
      AfterEvent(log, e);
      LogGrows(Now(), e, marker);
      log, steps := log + [e], steps - 1;
      Record();
      return true;
    }

    /** Removes the marker; only once nothing is outstanding, or a delete has already gone astray. */
    method DropMarker() returns (alive: bool)
      requires Valid() && (Outstanding(log).None? || Stranded(log))
      modifies this`marker, this`steps, this`history
      ensures Valid() && alive == (old(steps) > 0) && old(history) <= history
      ensures alive ==> marker == None && steps == old(steps) - 1
      ensures !alive ==> marker == old(marker) && steps == 0 && history == old(history)
    {
      hide WellLogged, EventCarries, BundleSound;
      if steps == 0 {
        return false;
      }
      assert Good(Now());
      marker, steps := None, steps - 1;
      assert Good(Now());
      Record();
      return true;
    }

    method SetState(s: Option<State>) returns (alive: bool)
      requires Valid()
      modifies this`state, this`steps, this`history
      ensures Valid() && alive == (old(steps) > 0) && old(history) <= history
      ensures alive ==> state == s && steps == old(steps) - 1
      ensures !alive ==> state == old(state) && steps == 0 && history == old(history)
    {
      hide WellLogged, EventCarries, BundleSound, MarkerSound;
      if steps == 0 {
        return false;
      }
      assert Good(Now());
      state, steps := s, steps - 1;
      assert Good(Now());
      Record();
      return true;
    }

    /** Puts the secrets bundle into a vault. */
    method Upload(vault: string, bundle: Secrets) returns (alive: bool)
      requires Valid() && secrets == Some(bundle) && bundle.HasKeys()
      modifies this`vaults, this`steps, this`history
      ensures Valid() && alive == (old(steps) > 0) && old(history) <= history
      ensures alive ==> vaults == old(vaults)[vault := bundle] && steps == old(steps) - 1
      ensures !alive ==> vaults == old(vaults) && steps == 0 && history == old(history)
    {
      hide WellLogged, EventCarries, MarkerSound;
      if steps == 0 {
        return false;
      }
      assert Good(Now());
      vaults, steps := vaults[vault := bundle], steps - 1;
      assert Good(Now());
      Record();
      return true;
    }

    // ---- Parts of commands ----

    lemma NowGood()
      requires Valid()
      ensures Good(Now())
    {
    }

    /** Names the attempt in the marker, then submits it. */
    method Attempt(deployment: string, group: string, accounting: bool, params: Params) returns (alive: bool)
      requires Valid() && !Attempted(log, deployment) && Carries(params, secrets)
      requires accounting ==> secrets.Some? && secrets.value.mysql.Some?
      modifies this`marker, this`log, this`steps, this`history
      ensures Valid() && old(history) <= history
      ensures forall d :: Attempted(log, d) ==> Attempted(old(log), d) || d == deployment
      ensures alive ==> marker == Some(Marker(deployment, group, accounting))
      ensures alive ==> Outstanding(log) == Some((deployment, group)) && !Stranded(log)
      ensures alive ==> log == AfterAttempt(old(log), deployment, group, params)
      ensures old(steps) >= 2 ==> alive && steps == old(steps) - 2
      ensures old(steps) == 0 ==> !alive && marker == old(marker) && log == old(log)
      ensures old(steps) == 1 ==>
                && !alive && marker == Some(Marker(deployment, group, accounting))
                && log == old(log) + [MarkerSaved(deployment, group)]
      ensures !alive ==> steps == 0
    {
      hide Good, Carries;
      AttemptsAfter(log, MarkerSaved(deployment, group));
      alive := SaveMarker(Marker(deployment, group, accounting));
      if !alive {
        return;
      }
      var e := Submitted(deployment, group, params);
      AttemptsAfter(log, e);
      AfterEvent(log, e);
      alive := Submit(deployment, group, params);
      assert alive ==> log[|log| - 1] == e;
    }

    /** The steps both kinds of finalize end with: secrets, vault, and done. */
    method SaveAndUpload(deployment: string, saved: Secrets, cloud: Cloud) returns (done: bool)
      requires Valid() && secrets == Some(saved) && saved.HasKeys()
      modifies this`secrets, this`vaults, this`log, this`steps, this`history
      ensures Valid() && old(history) <= history && secrets == old(secrets)
      ensures log == if done then old(log) + [Finalized(deployment)] else old(log)
      ensures done && cloud.vault.Some? && cloud.accepts ==>
                cloud.vault.value in vaults && vaults[cloud.vault.value] == saved
      ensures old(steps) >= 3 ==> done && steps >= old(steps) - 3
      ensures OldOrUploaded(old(vaults), vaults, secrets, cloud)
    {
      hide Good;
      PreservesItself(secrets);
      var alive := SaveSecrets(saved);
      if !alive {
        return false;
      }
      if cloud.vault.Some? && cloud.accepts {
        alive := Upload(cloud.vault.value, saved);
        if !alive {
          return false;
        }
      }
      done := Append(Finalized(deployment));
    }

    /** Post-deploy hooks of a Slurm cluster: the key pair is read back from the file. */
    method FinalizeSlurm(deployment: string, group: string, accounting: bool, ldap: string, mysql: string,
                         existing: Option<Secrets>, cloud: Cloud) returns (done: bool)
      requires Valid() && secrets.Some? && secrets.value.HasKeys()
      requires ldap == secrets.value.ldap && MysqlToSave(accounting, mysql, existing) == secrets.value.mysql
      modifies this`secrets, this`state, this`vaults, this`log, this`steps, this`history
      ensures Valid() && old(history) <= history && secrets == old(secrets)
      ensures log == if done then old(log) + [Finalized(deployment)] else old(log)
      ensures done ==> SlurmReady(old(log), deployment, cloud) && state == Some(State(group))
      ensures done && cloud.vault.Some? && cloud.accepts ==>
                cloud.vault.value in vaults && Some(vaults[cloud.vault.value]) == secrets
      ensures !SlurmReady(old(log), deployment, cloud) ==> Now() == old(Now()) && history == old(history)
      ensures old(steps) >= 4 && SlurmReady(old(log), deployment, cloud) ==> done && steps >= old(steps) - 4
      ensures OldOrUploaded(old(vaults), vaults, secrets, cloud)
      ensures state == Some(State(group)) || (state == old(state) && vaults == old(vaults) && log == old(log))
    {
      hide Good, DeployedAs;
      if !SlurmReady(log, deployment, cloud) {
        return false;
      }
      var alive := SetState(Some(State(group)));
      if !alive {
        return false;
      }
      var onDisk := secrets;
      var saved := Secrets(ldap, MysqlToSave(accounting, mysql, existing), PublicKey(onDisk, existing),
                           PrivateKey(onDisk, existing));
      done := SaveAndUpload(deployment, saved, cloud);
    }

    /** Finalizes the deployment the marker names and removes the marker. */
    method FinishSlurm(group: string, accounting: bool, ldap: string, mysql: string,
                       existing: Option<Secrets>, cloud: Cloud) returns (done: bool)
      requires Valid() && marker.Some? && secrets.Some? && secrets.value.HasKeys()
      requires ldap == secrets.value.ldap && MysqlToSave(accounting, mysql, existing) == secrets.value.mysql
      modifies this
      ensures Valid() && old(history) <= history && secrets == old(secrets)
      ensures forall d :: Attempted(log, d) ==> Attempted(old(log), d)
      ensures done ==> Ended(group, old(marker).value.deployment, old(log), cloud)
      ensures done ==> SlurmReady(old(log), old(marker).value.deployment, cloud)
      ensures !SlurmReady(old(log), old(marker).value.deployment, cloud) ==>
                Now() == old(Now()) && history == old(history)
      ensures old(steps) >= 5 && SlurmReady(old(log), old(marker).value.deployment, cloud) ==> done
      ensures Finishing(old(marker).value, old(log), group, cloud, done, old(Now()), Now())
    {
      hide Good, DeployedAs, Outstanding, Stranded, Attempted;
      var deployment := marker.value.deployment;
      FinalizedNext(deployment, SlurmTarget);
      done := FinalizeSlurm(deployment, group, accounting, ldap, mysql, existing, cloud);
      if done {
        done := DropMarker();
      }
    }

    /**
     What a finished finalize leaves: state, no marker, nothing outstanding, and the vault's bundle equal
     to the secrets.
     */
    ghost predicate Ended(group: string, deployment: string, before: seq<Event>, cloud: Cloud)
      reads this
    {
      && marker == None && state == Some(State(group)) && log == before + [Finalized(deployment)]
      && Outstanding(log).None? && Stranded(log) == Stranded(before)
      && (cloud.vault.Some? && cloud.accepts ==>
            cloud.vault.value in vaults && Some(vaults[cloud.vault.value]) == secrets)
    }

    lemma FinalizedNext(deployment: string, target: Target)
      requires Valid() && marker.Some? && marker.value.deployment == deployment
      ensures var after := log + [Finalized(deployment)];
              && (forall d :: Attempted(after, d) ==> Attempted(log, d))
              && Stranded(after) == Stranded(log)
              && (DeployedAs(log, deployment, target) ==> Outstanding(after).None?)
    {
      hide Good, Outstanding, Stranded, Attempted;
      NowGood();
      AttemptsAfter(log, Finalized(deployment));
      AfterEvent(log, Finalized(deployment));
      FinalizesOutstanding(Now(), deployment);
    }

    /** Finalizes an AKS deployment with the secrets already at hand and removes the marker. */
    method FinishAks(group: string, cloud: Cloud) returns (done: bool)
      requires Valid() && marker.Some? && secrets.Some? && secrets.value.HasKeys()
      modifies this
      ensures Valid() && old(history) <= history && secrets == old(secrets)
      ensures forall d :: Attempted(log, d) ==> Attempted(old(log), d)
      ensures done ==> Ended(group, old(marker).value.deployment, old(log), cloud)
      ensures done ==> AksReady(old(log), old(marker).value.deployment, cloud)
      ensures !AksReady(old(log), old(marker).value.deployment, cloud) ==>
                Now() == old(Now()) && history == old(history)
      ensures old(steps) >= 5 && AksReady(old(log), old(marker).value.deployment, cloud) ==> done
      ensures Finishing(old(marker).value, old(log), group, cloud, done, old(Now()), Now())
    {
      hide Good, DeployedAs, Outstanding, Stranded, Attempted;
      var deployment := marker.value.deployment;
      if !AksReady(log, deployment, cloud) {
        return false;
      }
      FinalizedNext(deployment, AksTarget);
      var alive := SetState(Some(State(group)));
      if !alive {
        return false;
      }
      done := SaveAndUpload(deployment, secrets.value, cloud);
      if done {
        done := DropMarker();
      }
    }

    // ---- Commands ----

    method DeploySlurm(a: DeployArgs, g: Generated, cloud: Cloud) returns (done: bool)
      requires Valid() && g.Valid() && !Attempted(log, g.deployment)
      modifies this
      ensures Valid() && old(history) <= history
      ensures forall d :: Attempted(log, d) ==> Attempted(old(log), d) || (d == g.deployment && !a.skipArm)
      ensures done ==> secrets == Some(SlurmSecrets(old(secrets), a.accounting, g))
      ensures done && a.whatIf ==> marker == old(marker) && state == old(state)
      ensures done && !a.whatIf && a.noWait && !a.skipArm ==>
                && marker == Some(Marker(g.deployment, a.group, a.accounting)) && state == old(state)
                && log == AfterAttempt(old(log), g.deployment, a.group, SlurmParams(secrets.value, a.accounting))
                && Outstanding(log) == Some((g.deployment, a.group)) && !Stranded(log)
      ensures done && !a.whatIf && !a.noWait && !a.skipArm ==>
                Ended(a.group, g.deployment,
                      AfterAttempt(old(log), g.deployment, a.group, SlurmParams(secrets.value, a.accounting)), cloud)
      ensures done && !a.whatIf && !a.noWait && a.skipArm ==>
                && old(marker).Some? && Ended(a.group, old(marker).value.deployment, old(log), cloud)
                // The state names the group the deployment was submitted in exactly when the arguments repeat it.
                && (SubmittedIn(old(log), old(marker).value.deployment, state.value.group)
                    <==> a.group == old(marker).value.group)
      ensures done ==> SlurmCompletes(a, old(marker), old(log), cloud)
      ensures old(steps) >= 8 ==> (done <==> SlurmCompletes(a, old(marker), old(log), cloud))
      // Stopped or finished: without a marker to skip to nothing changes, else it leaves what `Leaves` says.
      ensures if a.skipArm && old(marker).None? then Now() == old(Now())
              else Leaves(a, old(steps), SlurmSecrets(old(secrets), a.accounting, g),
                          Marker(g.deployment, a.group, a.accounting),
                          SlurmParams(SlurmSecrets(old(secrets), a.accounting, g), a.accounting), a.group,
                          SlurmFinalizes(a, old(marker), old(log), cloud), cloud, done, old(Now()), Now())
    {
      hide Good, SlurmSecrets, SlurmParams, Carries, Attempted, Outstanding;
      hide Stranded, SlurmReady, SubmittedIn, Preserves, AfterAttempt, DeployedAs;
      if a.skipArm && marker.None? {
        return false;
      }
      var existing := secrets;
      var toSave := SlurmSecrets(existing, a.accounting, g);
      var mysql := if a.accounting then toSave.mysql.GetOr("") else "";
      SlurmSecretsKept(existing, a.accounting, g);
      var alive := SaveSecrets(toSave);
      if !alive {
        return false;
      }
      var params := SlurmParams(toSave, a.accounting);
      if a.whatIf {
        AttemptsAfter(log, WhatIf(params));
        done := AskWhatIf(params);
        return;
      }
      if !a.skipArm {
        alive := Attempt(g.deployment, a.group, a.accounting, params);
        if !alive {
          return false;
        }
        NewlyReady(old(log), g.deployment, a.group, params, cloud);
      } else {
        NowGood();
        SubmittedInMarkersGroup(Now(), SlurmTarget, a.group);
        ReadyIsDeployed(log, marker.value.deployment, cloud);
      }
      if a.noWait {
        return true;
      }
      done := FinishSlurm(a.group, a.accounting, toSave.ldap, mysql, existing, cloud);
    }

    method DeployAks(a: DeployArgs, g: Generated, cloud: Cloud) returns (done: bool)
      requires Valid() && g.Valid() && !Attempted(log, g.deployment)
      modifies this
      ensures Valid() && old(history) <= history
      ensures forall d :: Attempted(log, d) ==> Attempted(old(log), d) || (d == g.deployment && !a.skipArm)
      ensures done ==> secrets == Some(AksSecrets(old(secrets), g))
      ensures done && a.whatIf ==> marker == old(marker) && state == old(state)
      ensures done && !a.whatIf && a.noWait && !a.skipArm ==>
                && marker == Some(Marker(g.deployment, a.group, false)) && state == old(state)
                && log == AfterAttempt(old(log), g.deployment, a.group, AksParams(secrets.value))
                && Outstanding(log) == Some((g.deployment, a.group)) && !Stranded(log)
      ensures done && !a.whatIf && !a.noWait && !a.skipArm ==>
                Ended(cloud.outputGroup.GetOr(a.group), g.deployment,
                      AfterAttempt(old(log), g.deployment, a.group, AksParams(secrets.value)), cloud)
      ensures done && !a.whatIf && !a.noWait && a.skipArm ==>
                && old(marker).Some?
                && Ended(cloud.outputGroup.GetOr(a.group), old(marker).value.deployment, old(log), cloud)
                && (SubmittedIn(old(log), old(marker).value.deployment, state.value.group)
                    <==> cloud.outputGroup.GetOr(a.group) == old(marker).value.group)
      ensures done ==> AksCompletes(a, old(marker), old(log), cloud)
      ensures old(steps) >= 8 ==> (done <==> AksCompletes(a, old(marker), old(log), cloud))
      ensures Leaves(a, old(steps), AksSecrets(old(secrets), g), Marker(g.deployment, a.group, false),
                     AksParams(AksSecrets(old(secrets), g)), cloud.outputGroup.GetOr(a.group),
                     AksFinalizes(a, old(marker), old(log), cloud), cloud, done, old(Now()), Now())
    {
      hide Good, AksSecrets, AksParams, Carries, Attempted, Outstanding;
      hide Stranded, AksReady, SubmittedIn, Preserves, AfterAttempt, DeployedAs;
      var existing := secrets;
      var toSave := AksSecrets(existing, g);
      AksSecretsKept(existing, g);
      var alive := SaveSecrets(toSave);
      if !alive {
        return false;
      }
      if a.skipArm && marker.None? {
        return false;
      }
      var params := AksParams(toSave);
      if a.whatIf {
        AttemptsAfter(log, WhatIf(params));
        done := AskWhatIf(params);
        return;
      }
      var group := cloud.outputGroup.GetOr(a.group);
      if !a.skipArm {
        alive := Attempt(g.deployment, a.group, false, params);
        if !alive {
          return false;
        }
        NewlyReady(old(log), g.deployment, a.group, params, cloud);
      } else {
        NowGood();
        SubmittedInMarkersGroup(Now(), AksTarget, group);
        ReadyIsDeployed(log, marker.value.deployment, cloud);
      }
      if a.noWait {
        return true;
      }
      done := FinishAks(group, cloud);
    }

    /** Waits for the deployment the marker names, and finalizes it as a Slurm cluster whatever it was submitted as. */
    method Resume(cloud: Cloud) returns (done: bool)
      requires Valid()
      modifies this
      ensures Valid() && old(history) <= history && secrets == old(secrets)
      ensures forall d :: Attempted(log, d) ==> Attempted(old(log), d)
      ensures done ==>
                old(marker).Some? && Ended(old(marker).value.group, old(marker).value.deployment, old(log), cloud)
      ensures done ==> SubmittedIn(old(log), old(marker).value.deployment, state.value.group)
      ensures done ==> ResumeCompletes(old(marker), old(log), cloud)
      ensures !ResumeCompletes(old(marker), old(log), cloud) ==> Now() == old(Now())
      ensures old(steps) >= 5 ==> (done <==> ResumeCompletes(old(marker), old(log), cloud))
      ensures ResumeCompletes(old(marker), old(log), cloud) ==>
                Finishing(old(marker).value, old(log), old(marker).value.group, cloud, done, old(Now()), Now())
    {
      hide Good, Attempted, Outstanding, Stranded, SlurmReady, SubmittedIn, Preserves;
      if !ResumeCompletes(marker, log, cloud) {
        return false;
      }
      NowGood();
      ReadyIsDeployed(log, marker.value.deployment, cloud);
      SubmittedWithSecrets(Now(), marker.value.deployment);
      SubmittedInMarkersGroup(Now(), SlurmTarget, marker.value.group);
      AccountingHasPassword(Now());
      var found := secrets;
      var ldap := found.value.ldap;
      var mysql := found.value.mysql.GetOr("");
      done := FinishSlurm(marker.value.group, marker.value.accounting, ldap, mysql, found, cloud);
    }

    /** The resource group of the cluster; a manifest found in the vault is cached as its state. */
    method Resolve(resolution: Resolution) returns (group: Option<string>)
      requires Valid() && (resolution.Cached? ==> state.Some?)
      modifies this`state, this`steps, this`history
      ensures Valid() && old(history) <= history
      ensures match resolution
              case Cached => group == Some(old(state).value.group) && state == old(state) && steps == old(steps)
              case FromVault(s) =>
                && (old(steps) > 0 ==> group == Some(s.group) && steps == old(steps) - 1)
                && (old(steps) == 0 ==> group.None?)
                                   && (group.Some? ==> group.value == s.group)
              case Unresolved =>
                group == (if marker.Some? then Some(marker.value.group) else None) && steps == old(steps)
    {
      match resolution {
        case Cached => group := Some(state.value.group);
        case FromVault(s) =>
          var cached := SetState(Some(s));
          group := if cached then Some(s.group) else None;
        case Unresolved => group := if marker.Some? then Some(marker.value.group) else None;
      }
    }

    /**
     Deletes the resource group of the cluster, then its state file and marker, both on a best
     effort. `group` is the group deleted; the secrets file stays.
     */
    method Delete(resolution: Resolution, stateRemoved: bool, markerRemoved: bool)
      returns (group: Option<string>, done: bool)
      requires Valid() && (resolution.Cached? ==> state.Some?)
      modifies this
      ensures Valid() && old(history) <= history && secrets == old(secrets) && vaults == old(vaults)
      ensures forall d :: Attempted(log, d) ==> Attempted(old(log), d)
      ensures log == if group.Some? then old(log) + [GroupDeleted(group.value)] else old(log)
      ensures group.Some? ==>
                match resolution
                case Cached => group.value == old(state).value.group
                case FromVault(s) => group.value == s.group
                case Unresolved => old(marker).Some? && group.value == old(marker).value.group
      ensures done ==> group.Some? && (markerRemoved ==> marker == None) && (!markerRemoved ==> marker == old(marker))
      ensures done && stateRemoved ==> state == None
      ensures !done ==> marker == old(marker)
      ensures (resolution.Unresolved? ==> old(marker).Some?) && old(steps) >= 4 ==> done
      // Deleting tracks the latest submission exactly when it deletes the group that one is outstanding in.
      ensures done && markerRemoved ==>
                ((Outstanding(log).Some? ==> marker.Some?) <==>
                 (Outstanding(old(log)).None? || Outstanding(old(log)).value.1 == group.value))
      // Exactly when another group is deleted than the one the latest submission is outstanding in, that submission
      // is stranded.
      ensures done ==>
                (Stranded(log) <==>
                 Stranded(old(log)) || (Outstanding(old(log)).Some? && Outstanding(old(log)).value.1 != group.value))
      ensures done ==>
                Outstanding(log) ==
                if Outstanding(old(log)).Some? && Outstanding(old(log)).value.1 == group.value then None
                else Outstanding(old(log))
    {
      hide Good, Outstanding, Stranded, Attempted, Preserves, Keeps;
      done := false;
      group := Resolve(resolution);
      if group.None? {
        return;
      }
      AfterEvent(log, GroupDeleted(group.value));
      AttemptsAfter(log, GroupDeleted(group.value));
      var alive := Append(GroupDeleted(group.value));
      if !alive {
        return None, false;
      }
      if stateRemoved {
        alive := SetState(None);
        if !alive {
          return;
        }
      }
      if markerRemoved {
        alive := DropMarker();
        if !alive {
          return;
        }
      }
      done := true;
    }
  }

  /** The log of an attempt: its marker, then its submission. */
  function AfterAttempt(log: seq<Event>, deployment: string, group: string, params: Params): seq<Event> {
    log + [MarkerSaved(deployment, group), Submitted(deployment, group, params)]
  }

  // ---- Choice of secrets ----

  /** Deploy reuses what is saved and generates the rest. */
  function SlurmSecrets(existing: Option<Secrets>, accounting: bool, g: Generated): Secrets {
    var saved := if existing.Some? then existing.value.mysql else None;
    var mysql := if accounting then Some(saved.GetOr(g.mysql)) else saved;
    var ldap := if existing.Some? then existing.value.ldap else g.ldap;
    if existing.Some? && existing.value.HasKeys() then
      Secrets(ldap, mysql, existing.value.publicKey, existing.value.privateKey)
    else Secrets(ldap, mysql, g.publicKey, g.privateKey)
  }

  /** An AKS deploy generates only a key pair; a password it does not find stays empty. */
  function AksSecrets(existing: Option<Secrets>, g: Generated): Secrets {
    if existing.Some? && existing.value.HasKeys() then existing.value
    else Secrets(if existing.Some? then existing.value.ldap else "",
                 if existing.Some? then existing.value.mysql else None,
                 g.publicKey, g.privateKey)
  }

  /** The parameters of a submission, from the secrets saved before it. */
  function SlurmParams(s: Secrets, accounting: bool): (p: Params)
    ensures p.Slurm?
  {
    Params.Slurm(Trim(s.publicKey), accounting, if accounting then s.mysql.GetOr("") else "", s.ldap)
  }

  function AksParams(s: Secrets): (p: Params)
    ensures p.Aks?
  {
    Params.Aks(Trim(s.publicKey))
  }

  function MysqlToSave(accounting: bool, mysql: string, existing: Option<Secrets>): Option<string> {
    if accounting then Some(mysql) else if existing.Some? then existing.value.mysql else None
  }

  function PublicKey(onDisk: Option<Secrets>, existing: Option<Secrets>): string {
    if onDisk.Some? then onDisk.value.publicKey else if existing.Some? then existing.value.publicKey else ""
  }

  function PrivateKey(onDisk: Option<Secrets>, existing: Option<Secrets>): string {
    if onDisk.Some? then onDisk.value.privateKey else if existing.Some? then existing.value.privateKey else ""
  }

  /** The choice preserves what was saved, submits what it saves, and changes nothing on a re-invocation. */
  lemma SlurmSecretsKept(existing: Option<Secrets>, accounting: bool, g: Generated)
    requires g.Valid()
    ensures var s := SlurmSecrets(existing, accounting, g);
            var mysql := if accounting then s.mysql.GetOr("") else "";
            && Preserves(existing, Some(s)) && s.HasKeys()
            && (accounting ==> s.mysql.Some?)
            && MysqlToSave(accounting, mysql, existing) == s.mysql
            && Carries(SlurmParams(s, accounting), Some(s))
            && SlurmParams(s, accounting).accounting == accounting
            && SlurmParams(s, accounting).mysql == (if accounting then s.mysql.value else "")
            && SlurmSecrets(Some(s), accounting, g) == s
  {
    hide Trim;
  }

  lemma AksSecretsKept(existing: Option<Secrets>, g: Generated)
    requires g.Valid()
    ensures var s := AksSecrets(existing, g);
            && Preserves(existing, Some(s)) && s.HasKeys()
            && Carries(AksParams(s), Some(s))
            && AksSecrets(Some(s), g) == s
  {
    hide Trim;
  }

  /** The LDAP password a Slurm deploy submits is empty exactly when the secrets file already holds an empty one. */
  lemma SubmittedLdapPassword(existing: Option<Secrets>, accounting: bool, g: Generated)
    requires g.Valid()
    ensures SlurmSecrets(existing, accounting, g).ldap == "" <==> existing.Some? && existing.value.ldap == ""
  {
  }

  // ---- Facts about good states ----

  lemma SubmittedWithSecrets(w: World, deployment: string)
    requires Good(w) && Deployed(w.log, deployment)
    ensures w.secrets.Some? && w.secrets.value.HasKeys()
  {
    hide Trim;
    var i :| 0 <= i < |w.log| && w.log[i].Submitted? && w.log[i].deployment == deployment;
    assert EventCarries(w.log[i], w.secrets);
  }

  lemma AccountingHasPassword(w: World)
    requires Good(w) && w.marker.Some?
    ensures w.marker.value.accounting ==> w.secrets.Some? && w.secrets.value.mysql.Some?
  {
  }

  /** A deployment just submitted is ready, once it succeeds, for finalizing as what it was submitted as. */
  lemma NewlyReady(log: seq<Event>, deployment: string, group: string, params: Params, cloud: Cloud)
    ensures var after := AfterAttempt(log, deployment, group, params);
            && (params.Slurm? ==> (SlurmReady(after, deployment, cloud) <==> cloud.succeeded))
            && (params.Aks? ==>
                  (AksReady(after, deployment, cloud) <==> cloud.succeeded && cloud.installs && cloud.vault.Some?))
  {
    var after := AfterAttempt(log, deployment, group, params);
    assert after[|after| - 1] == Submitted(deployment, group, params);
  }

  lemma ReadyIsDeployed(log: seq<Event>, deployment: string, cloud: Cloud)
    ensures SlurmReady(log, deployment, cloud) ==> DeployedAs(log, deployment, SlurmTarget) && Deployed(log, deployment)
    ensures AksReady(log, deployment, cloud) ==> DeployedAs(log, deployment, AksTarget) && Deployed(log, deployment)
  {
  }

  /** No deployment is ready for both kinds of finalizing. */
  lemma OneTarget(w: World, deployment: string)
    requires Good(w)
    ensures !(DeployedAs(w.log, deployment, SlurmTarget) && DeployedAs(w.log, deployment, AksTarget))
  {
    hide MarkerSound, EventCarries, BundleSound;
    if DeployedAs(w.log, deployment, SlurmTarget) && DeployedAs(w.log, deployment, AksTarget) {
      var i :| 0 <= i < |w.log| && w.log[i].Submitted? && w.log[i].deployment == deployment
            && TargetOf(w.log[i].params) == SlurmTarget;
      var j :| 0 <= j < |w.log| && w.log[j].Submitted? && w.log[j].deployment == deployment
            && TargetOf(w.log[j].params) == AksTarget;
      SubmittedOnce(w, i, j);
      assert false;
    }
  }

  lemma SubmittedOnce(w: World, i: nat, j: nat)
    requires Good(w) && i < |w.log| && j < |w.log| && w.log[i].Submitted? && w.log[j].Submitted?
    requires w.log[i].deployment == w.log[j].deployment
    ensures i == j
  {
    hide MarkerSound, EventCarries, BundleSound;
    assert w.log[i - 1] == MarkerSaved(w.log[i].deployment, w.log[i].group);
    assert w.log[j - 1] == MarkerSaved(w.log[j].deployment, w.log[j].group);
  }

  /** The deployment a marker names was submitted in the marker's group and in no other. */
  lemma SubmittedInMarkersGroup(w: World, target: Target, group: string)
    requires Good(w) && w.marker.Some?
    ensures DeployedAs(w.log, w.marker.value.deployment, target) ==>
              (SubmittedIn(w.log, w.marker.value.deployment, group) <==> group == w.marker.value.group)
  {
    hide EventCarries, BundleSound, Outstanding, Stranded, LastMarker;
    var m := w.marker.value;
    if DeployedAs(w.log, m.deployment, target) {
      var i :| 0 <= i < |w.log| && w.log[i].Submitted? && w.log[i].deployment == m.deployment
            && TargetOf(w.log[i].params) == target;
      var j := LastMarkerAt(w.log);
      assert w.log[i - 1] == MarkerSaved(w.log[i].deployment, w.log[i].group);
      assert w.log[j] == MarkerSaved(m.deployment, m.group);
      assert i - 1 == j && w.log[i].group == m.group;
      if SubmittedIn(w.log, m.deployment, group) {
        var k :| 0 <= k < |w.log| && w.log[k].Submitted? && w.log[k].deployment == m.deployment
              && w.log[k].group == group;
        SubmittedOnce(w, i, k);
      }
    }
  }

  lemma PreservesItself(s: Option<Secrets>)
    ensures Preserves(s, s)
  {
  }

  /** Only saving a marker names a new attempt. */
  lemma AttemptsAfter(log: seq<Event>, e: Event)
    ensures forall d :: Attempted(log + [e], d) <==> Attempted(log, d) || (e.MarkerSaved? && e.deployment == d)
  {
    forall d ensures Attempted(log + [e], d) <==> Attempted(log, d) || (e.MarkerSaved? && e.deployment == d) {
      if Attempted(log, d) {
        var i :| 0 <= i < |log| && log[i].MarkerSaved? && log[i].deployment == d;
        assert (log + [e])[i] == log[i];
      }
      assert (log + [e])[|log|] == e;
    }
  }

  /** Finalizing the deployment a marker names leaves nothing outstanding. */
  lemma FinalizesOutstanding(w: World, deployment: string)
    requires Good(w) && w.marker.Some? && w.marker.value.deployment == deployment
    ensures forall target :: DeployedAs(w.log, deployment, target) ==>
              Outstanding(w.log + [Finalized(deployment)]).None?
  {
    assert forall target :: DeployedAs(w.log, deployment, target) ==> Deployed(w.log, deployment);
    AfterEvent(w.log, Finalized(deployment));
    if Deployed(w.log, deployment) {
      KnownMarkerIsOutstanding(w);
    }
  }
}
