/**
 What deploying a cluster leaves behind: the secrets file, the pending marker, the state file,
 Key Vault bundles, and the log of what was asked of ARM. Predicates on these say what the
 commands must keep.
 */
module DeployLog {
  import opened Strings
  import opened Wrappers

  datatype Secrets = Secrets(ldap: string, mysql: Option<string>, publicKey: string, privateKey: string) {
    predicate HasKeys() {
      publicKey != "" && privateKey != ""
    }
  }

  /** The pending marker: the attempt it names, its resource group, and whether accounting was on. */
  datatype Marker = Marker(deployment: string, group: string, accounting: bool)

  datatype State = State(group: string)

  /** The secrets a submission carries; without accounting the MySQL parameter is empty. */
  datatype Params =
    | Slurm(publicKey: string, accounting: bool, mysql: string, ldap: string)
    | Aks(publicKey: string)

  datatype Event =
    | MarkerSaved(deployment: string, group: string)
    | Submitted(deployment: string, group: string, params: Params)
    | WhatIf(params: Params)
    | Finalized(deployment: string)
    | GroupDeleted(group: string)

  datatype World = World(
    secrets: Option<Secrets>,
    marker: Option<Marker>,
    state: Option<State>,
    vaults: map<string, Secrets>,
    log: seq<Event>)

  // ---- Secrets ----

  /** `t` still holds everything `s` held; an incomplete key pair may be completed. */
  predicate Preserves(s: Option<Secrets>, t: Option<Secrets>) {
    s.Some? ==>
      && t.Some?
      && t.value.ldap == s.value.ldap
      && (s.value.mysql.Some? ==> t.value.mysql == s.value.mysql)
      && (s.value.HasKeys() ==> t.value.publicKey == s.value.publicKey && t.value.privateKey == s.value.privateKey)
  }

  /** Whatever `params` carries is the saved value. */
  predicate Carries(params: Params, secrets: Option<Secrets>) {
    && secrets.Some? && secrets.value.HasKeys()
    && params.publicKey == Trim(secrets.value.publicKey)
    && (params.Slurm? ==>
          && params.ldap == secrets.value.ldap
          && (if params.accounting then secrets.value.mysql == Some(params.mysql) else params.mysql == ""))
  }

  predicate EventCarries(e: Event, secrets: Option<Secrets>) {
    e.Submitted? || e.WhatIf? ==> Carries(e.params, secrets)
  }

  // ---- Reading the log ----

  /** The latest submission, unless it has been finalized or its resource group deleted. */
  function Outstanding(log: seq<Event>): Option<(string, string)> {
    if log == [] then None
    else
      var before := Outstanding(log[..|log| - 1]);
      match log[|log| - 1]
      case Submitted(d, g, _) => Some((d, g))
      case Finalized(d) => if before.Some? && before.value.0 == d then None else before
      case GroupDeleted(g) => if before.Some? && before.value.1 == g then None else before
      case _ => before
  }

  /** Since the latest submission a delete went to another group than the one it is outstanding in. */
  predicate Stranded(log: seq<Event>) {
    if log == [] then false
    else
      var before := log[..|log| - 1];
      match log[|log| - 1]
      case Submitted(_, _, _) => false
      case GroupDeleted(g) => Stranded(before) || (Outstanding(before).Some? && Outstanding(before).value.1 != g)
      case _ => Stranded(before)
  }

  function LastMarker(log: seq<Event>): Option<(string, string)> {
    if log == [] then None
    else if log[|log| - 1].MarkerSaved? then Some((log[|log| - 1].deployment, log[|log| - 1].group))
    else LastMarker(log[..|log| - 1])
  }

  /** Names given to attempts. */
  predicate Attempted(log: seq<Event>, deployment: string) {
    exists i :: 0 <= i < |log| && log[i].MarkerSaved? && log[i].deployment == deployment
  }

  /** ARM knows a deployment of this name. */
  predicate Deployed(log: seq<Event>, deployment: string) {
    exists i :: 0 <= i < |log| && log[i].Submitted? && log[i].deployment == deployment
  }

  /** What a deployment was submitted as; its template decides which outputs it has. */
  datatype Target = SlurmTarget | AksTarget

  function TargetOf(params: Params): Target {
    if params.Slurm? then SlurmTarget else AksTarget
  }

  predicate DeployedAs(log: seq<Event>, deployment: string, target: Target) {
    exists i :: 0 <= i < |log| && log[i].Submitted?
                && log[i].deployment == deployment && TargetOf(log[i].params) == target
  }

  predicate SubmittedIn(log: seq<Event>, deployment: string, group: string) {
    exists i :: 0 <= i < |log| && log[i].Submitted? && log[i].deployment == deployment && log[i].group == group
  }

  /** Every submission comes right after the marker that names it, and markers never repeat a name. */
  ghost predicate WellLogged(log: seq<Event>) {
    && (forall i :: 0 <= i < |log| && log[i].Submitted? ==>
          i > 0 && log[i - 1] == MarkerSaved(log[i].deployment, log[i].group))
    && (forall i, j :: 0 <= i < j < |log| && log[i].MarkerSaved? && log[j].MarkerSaved? ==>
          log[i].deployment != log[j].deployment)
  }

  // ---- What must hold at every moment ----

  ghost predicate MarkerSound(marker: Option<Marker>, secrets: Option<Secrets>, log: seq<Event>) {
    && (marker.Some? ==> LastMarker(log) == Some((marker.value.deployment, marker.value.group)))
    && (marker.Some? && marker.value.accounting ==> secrets.Some? && secrets.value.mysql.Some?)
    && (Outstanding(log).Some? && !Stranded(log) ==> marker.Some?)
  }

  /** A bundle in a vault agrees with the local secrets on everything it holds. */
  predicate BundleSound(bundle: Secrets, secrets: Option<Secrets>) {
    Preserves(Some(bundle), secrets) && bundle.HasKeys()
  }

  ghost predicate Good(w: World) {
    && WellLogged(w.log)
    && (forall i :: 0 <= i < |w.log| ==> EventCarries(w.log[i], w.secrets))
    && MarkerSound(w.marker, w.secrets, w.log)
    && (forall v :: v in w.vaults ==> BundleSound(w.vaults[v], w.secrets))
  }

  /** From `v` to a later `w` no secret changed or disappeared and nothing was unlogged. */
  ghost predicate Keeps(v: World, w: World) {
    Preserves(v.secrets, w.secrets) && v.log <= w.log
  }

  // ---- Lemmas ----

  lemma PreservesTransitive(a: Option<Secrets>, b: Option<Secrets>, c: Option<Secrets>)
    requires Preserves(a, b) && Preserves(b, c)
    ensures Preserves(a, c)
  {
  }

  lemma CarriesPreserved(params: Params, a: Option<Secrets>, b: Option<Secrets>)
    requires Carries(params, a) && Preserves(a, b)
    ensures Carries(params, b)
  {
    hide Trim;
  }

  /** Saving secrets that preserve the old ones keeps everything. */
  lemma SecretsKept(w: World, s: Secrets)
    requires Good(w) && Preserves(w.secrets, Some(s))
    ensures Good(w.(secrets := Some(s)))
  {
    forall i | 0 <= i < |w.log| ensures EventCarries(w.log[i], Some(s)) {
      assert EventCarries(w.log[i], w.secrets);
      if w.log[i].Submitted? || w.log[i].WhatIf? {
        CarriesPreserved(w.log[i].params, w.secrets, Some(s));
      }
    }
  }

  lemma LogGrows(w: World, e: Event, marker: Option<Marker>)
    requires Good(w) && EventCarries(e, w.secrets)
    requires e.Submitted? ==> w.log != [] && w.log[|w.log| - 1] == MarkerSaved(e.deployment, e.group)
    requires e.MarkerSaved? ==> !Attempted(w.log, e.deployment)
    requires MarkerSound(marker, w.secrets, w.log + [e])
    ensures Good(w.(log := w.log + [e], marker := marker))
  {
    hide MarkerSound;
    var log := w.log + [e];
    forall i | 0 <= i < |log| ensures EventCarries(log[i], w.secrets) {
      if i < |w.log| {
        assert log[i] == w.log[i] && EventCarries(w.log[i], w.secrets);
      }
    }
    assert WellLogged(log) by {
      forall i | 0 <= i < |log| && log[i].Submitted?
        ensures i > 0 && log[i - 1] == MarkerSaved(log[i].deployment, log[i].group)
      {
        if i < |w.log| {
          assert log[i] == w.log[i] && log[i - 1] == w.log[i - 1];
        }
      }
      forall i, j | 0 <= i < j < |log| && log[i].MarkerSaved? && log[j].MarkerSaved?
        ensures log[i].deployment != log[j].deployment
      {
        assert log[i] == w.log[i];
        if j < |w.log| {
          assert log[j] == w.log[j];
        }
      }
    }
  }

  /** How one more event changes what the log says. */
  lemma AfterEvent(log: seq<Event>, e: Event)
    ensures Outstanding(log + [e]) ==
            match e
            case Submitted(d, g, _) => Some((d, g))
            case Finalized(d) =>
              if Outstanding(log).Some? && Outstanding(log).value.0 == d then None else Outstanding(log)
            case GroupDeleted(g) =>
              if Outstanding(log).Some? && Outstanding(log).value.1 == g then None else Outstanding(log)
            case _ => Outstanding(log)
    ensures Stranded(log + [e]) <==>
            match e
            case Submitted(_, _, _) => false
            case GroupDeleted(g) => Stranded(log) || (Outstanding(log).Some? && Outstanding(log).value.1 != g)
            case _ => Stranded(log)
    ensures LastMarker(log + [e]) == if e.MarkerSaved? then Some((e.deployment, e.group)) else LastMarker(log)
  {
    assert (log + [e])[..|log|] == log;
  }

  /** The outstanding deployment is the last one submitted. */
  lemma {:induction false} OutstandingIsLatest(log: seq<Event>) returns (i: nat)
    requires Outstanding(log).Some?
    ensures i < |log| && log[i].Submitted? && Outstanding(log) == Some((log[i].deployment, log[i].group))
    ensures forall k :: i < k < |log| ==> !log[k].Submitted?
  {
    var n := |log| - 1;
    if log[n].Submitted? {
      i := n;
    } else {
      i := OutstandingIsLatest(log[..n]);
    }
  }

  lemma {:induction false} LastMarkerAt(log: seq<Event>) returns (j: nat)
    requires LastMarker(log).Some?
    ensures j < |log| && log[j] == MarkerSaved(LastMarker(log).value.0, LastMarker(log).value.1)
    ensures forall k :: j < k < |log| ==> !log[k].MarkerSaved?
  {
    var n := |log| - 1;
    if log[n].MarkerSaved? {
      j := n;
    } else {
      j := LastMarkerAt(log[..n]);
    }
  }

  /**
   While the latest submission is outstanding, and unless a delete went astray since, there is a
   marker, and it names that deployment or an attempt begun after it was submitted.
   */
  lemma MarkerNamesItOrLater(w: World)
    requires Good(w) && Outstanding(w.log).Some? && !Stranded(w.log)
    ensures w.marker.Some?
    ensures exists i, j :: 0 <= i < |w.log| && 0 <= j < |w.log|
              && w.log[i].Submitted? && Outstanding(w.log) == Some((w.log[i].deployment, w.log[i].group))
              && (forall k :: i < k < |w.log| ==> !w.log[k].Submitted?)
              && w.log[j] == MarkerSaved(w.marker.value.deployment, w.marker.value.group)
              && (w.marker.value.deployment == w.log[i].deployment || i < j)
  {
    hide Outstanding, Stranded, LastMarker, EventCarries, BundleSound;
    var i := OutstandingIsLatest(w.log);
    var j := LastMarkerAt(w.log);
    assert w.log[i - 1] == MarkerSaved(w.log[i].deployment, w.log[i].group);
    assert i - 1 <= j;
    assert j == i - 1 ==> w.marker.value.deployment == w.log[i].deployment;
  }

  /** A marker whose deployment ARM knows names the outstanding one, if any is. */
  lemma KnownMarkerIsOutstanding(w: World)
    requires Good(w) && w.marker.Some? && Deployed(w.log, w.marker.value.deployment)
    ensures Outstanding(w.log).Some? ==> Outstanding(w.log).value.0 == w.marker.value.deployment
  {
    hide Outstanding, Stranded, LastMarker, EventCarries, BundleSound;
    if Outstanding(w.log).Some? {
      var i := OutstandingIsLatest(w.log);
      var j := LastMarkerAt(w.log);
      var k :| 0 <= k < |w.log| && w.log[k].Submitted? && w.log[k].deployment == w.marker.value.deployment;
      assert w.log[k - 1] == MarkerSaved(w.log[k].deployment, w.log[k].group);
      assert w.log[i - 1] == MarkerSaved(w.log[i].deployment, w.log[i].group);
      assert k - 1 == j;
      assert k <= i && i - 1 <= j;
    }
  }
}
