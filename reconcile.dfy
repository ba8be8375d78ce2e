/**
 * The reconciliation pass of main.go:69-107: every listed deployment becomes
 * a `Service`, and for each service in order the client composes its policy
 * and then binds its role, reporting both replies and carrying on whatever
 * either of them was.
 */
module Reconcile {
  import opened Wrappers
  import opened Services
  import opened Vault

  /** The contents of Vault's policy store and role store. */
  datatype Stores = Stores(policies: map<string, string>, roles: map<string, RolePayload>)

  /** Whether the policy store and then the role store accept one service's writes. */
  datatype Replies = Replies(policyStore: bool, roleStore: bool)

  /** What the pass reports for one service: addPolicy's reply, then writeRole's. */
  datatype Outcome = Outcome(policy: Reply, role: Reply)

  predicate AllAccepted(replies: seq<Replies>)
  {
    forall i :: 0 <= i < |replies| ==> replies[i].policyStore && replies[i].roleStore
  }

  // ---------------------------------------------------------------------------
  // The pass as a function of the inventory
  // ---------------------------------------------------------------------------

  /** One service's outcome: writeRole is handed addPolicy's string, "" on failure. */
  function StepOutcome(s: Service, r: Replies): Outcome
  {
    var composed := AddPolicyResult(s, r.policyStore);
    Outcome(composed, WriteRoleResult(composed.value, s, r.roleStore))
  }

  /** The stores after one service: each write happens only when its reply is a success. */
  function StepStores(st: Stores, s: Service, r: Replies): Stores
  {
    var o := StepOutcome(s, r);
    Stores(
      if o.policy.error.None? then st.policies[o.policy.value := PolicyRule(s)] else st.policies,
      if o.role.error.None? then st.roles[o.role.value := RoleData(o.policy.value, s)] else st.roles)
  }

  /** The stores after the services are processed in order. */
  function PassStores(st: Stores, services: seq<Service>, replies: seq<Replies>): Stores
    requires |replies| == |services|
  {
    if services == [] then st
    else
      var n := |services| - 1;
      StepStores(PassStores(st, services[..n], replies[..n]), services[n], replies[n])
  }

  /** The map built by upserting `key(x) := value(x)` for each x in order: a later x wins. */
  function Upserts<T, K, V>(xs: seq<T>, key: T -> K, value: T -> V): map<K, V>
  {
    if xs == [] then map[]
    else
      var n := |xs| - 1;
      Upserts(xs[..n], key, value)[key(xs[n]) := value(xs[n])]
  }

  /** The role payload written for a service, bound to its composed policy. */
  function RoleEntry(s: Service): RolePayload
  {
    RoleData(PolicyName(s), s)
  }

  /** Every policy the services write, as name to rule. */
  function PolicyWrites(services: seq<Service>): map<string, string>
  {
    Upserts(services, PolicyName, PolicyRule)
  }

  /** Every role the services write, as path to payload. */
  function RoleWrites(services: seq<Service>): map<string, RolePayload>
  {
    Upserts(services, RolePath, RoleEntry)
  }

  /** The last x with a given key decides the value stored under that key. */
  lemma {:induction false} LastWins<T, K, V>(xs: seq<T>, key: T -> K, value: T -> V, i: nat)
    requires i < |xs|
    requires forall j :: i < j < |xs| ==> key(xs[j]) != key(xs[i])
    ensures key(xs[i]) in Upserts(xs, key, value)
    ensures Upserts(xs, key, value)[key(xs[i])] == value(xs[i])
  {
    var n := |xs| - 1;
    if i < n {
      forall j | i < j < n ensures key(xs[..n][j]) != key(xs[..n][i]) {
        assert xs[..n][j] == xs[j];
      }
      LastWins(xs[..n], key, value, i);
      assert xs[..n][i] == xs[i];
    }
  }

  // ---------------------------------------------------------------------------
  // The driver
  // ---------------------------------------------------------------------------

  /** One turn of the loop: addPolicy, then writeRole with whatever addPolicy returned. */
  method Step(client: Client, s: Service, r: Replies) returns (outcome: Outcome)
    modifies client
    ensures outcome == StepOutcome(s, r)
    ensures Stores(client.policies, client.roles) == StepStores(old(Stores(client.policies, client.roles)), s, r)
  {
    ghost var before := Stores(client.policies, client.roles);
    var policy, policyErr := client.AddPolicy(s, r.policyStore);
    var role, roleErr := client.WriteRole(policy, s, r.roleStore);
    outcome := Outcome(Reply(policy, policyErr), Reply(role, roleErr));
    StepReflects(before, s, r, outcome, Stores(client.policies, client.roles));
  }

  /** The loop over the services: one outcome per service, in inventory order, whatever each one was. */
  method ReconcileAll(client: Client, services: seq<Service>, replies: seq<Replies>) returns (report: seq<Outcome>)
    requires |replies| == |services|
    modifies client
    ensures |report| == |services|
    ensures forall i :: 0 <= i < |services| ==> report[i] == StepOutcome(services[i], replies[i])
    ensures Stores(client.policies, client.roles) == PassStores(old(Stores(client.policies, client.roles)), services, replies)
  {
    ghost var start := Stores(client.policies, client.roles);
    report := [];
    for i := 0 to |services|
      invariant |report| == i
      invariant forall k :: 0 <= k < i ==> report[k] == StepOutcome(services[k], replies[k])
      invariant Stores(client.policies, client.roles) == PassStores(start, services[..i], replies[..i])
    {
      assert services[..i + 1][..i] == services[..i] && replies[..i + 1][..i] == replies[..i];
      var outcome := Step(client, services[i], replies[i]);
      ghost var previous := report;
      report := report + [outcome];
      forall k | 0 <= k < i + 1 ensures report[k] == StepOutcome(services[k], replies[k]) {
        if k < i { assert report[k] == previous[k]; }
      }
    }
    assert services[..|services|] == services && replies[..|replies|] == replies;
  }

  /** The replies and store updates of AddPolicy and WriteRole make up one step. */
  lemma StepReflects(st: Stores, s: Service, r: Replies, o: Outcome, after: Stores)
    requires o.policy == AddPolicyResult(s, r.policyStore)
    requires o.role == WriteRoleResult(o.policy.value, s, r.roleStore)
    requires after.policies == if o.policy.error.None? then st.policies[o.policy.value := PolicyRule(s)] else st.policies
    requires after.roles == if o.role.error.None? then st.roles[o.role.value := RoleData(o.policy.value, s)] else st.roles
    ensures o == StepOutcome(s, r) && after == StepStores(st, s, r)
  {
  }

  /** The whole run: collect the services of the listed deployments, then reconcile them. */
  method Run(client: Client, deployments: seq<Deployment>, context: string, replies: seq<Replies>)
    returns (report: seq<Outcome>)
    requires |replies| == |deployments|
    modifies client
    ensures |report| == |deployments|
    ensures forall i :: 0 <= i < |deployments| ==> report[i] == StepOutcome(ServiceOf(deployments[i], context), replies[i])
    ensures Stores(client.policies, client.roles)
         == PassStores(old(Stores(client.policies, client.roles)), ServicesOf(deployments, context), replies)
  {
    var services := CollectServices(deployments, context);
    report := ReconcileAll(client, services, replies);
  }

  /** Upserting into the right operand of a union upserts into the union. */
  lemma UnionUpsert<K, V>(m: map<K, V>, w: map<K, V>, k: K, v: V)
    ensures m + w[k := v] == (m + w)[k := v]
  {
  }

  // ---------------------------------------------------------------------------
  // Properties of the pass
  // ---------------------------------------------------------------------------

  /**
   * What one service does to the stores: its policy is upserted when the
   * policy store accepts, and its role only when both stores accept; a
   * failed role write leaves the policy in place.
   */
  lemma StepEffect(st: Stores, s: Service, r: Replies)
    ensures StepStores(st, s, r).policies
         == if r.policyStore then st.policies[PolicyName(s) := PolicyRule(s)] else st.policies
    ensures StepStores(st, s, r).roles
         == if r.policyStore && r.roleStore then st.roles[RolePath(s) := RoleData(PolicyName(s), s)] else st.roles
  {
    ComposeThenBind(s, r.policyStore, r.roleStore);
    AddPolicyOutcome(s, r.policyStore);
  }

  /** With every write accepted, a pass upserts all the services' writes into the stores. */
  lemma {:induction false} PassAccepted(st: Stores, services: seq<Service>, replies: seq<Replies>)
    requires |replies| == |services| && AllAccepted(replies)
    ensures PassStores(st, services, replies)
         == Stores(st.policies + PolicyWrites(services), st.roles + RoleWrites(services))
  {
    if services != [] {
      var n := |services| - 1;
      assert AllAccepted(replies[..n]);
      PassAccepted(st, services[..n], replies[..n]);
      var before := PassStores(st, services[..n], replies[..n]);
      StepEffect(before, services[n], replies[n]);
      var s := services[n];
      UnionUpsert(st.policies, PolicyWrites(services[..n]), PolicyName(s), PolicyRule(s));
      UnionUpsert(st.roles, RoleWrites(services[..n]), RolePath(s), RoleData(PolicyName(s), s));
    }
  }

  /** Running the pass again over the same inventory changes nothing: writes are upserts. */
  lemma PassIdempotent(st: Stores, services: seq<Service>, first: seq<Replies>, second: seq<Replies>)
    requires |first| == |services| && |second| == |services|
    requires AllAccepted(first) && AllAccepted(second)
    ensures PassStores(PassStores(st, services, first), services, second) == PassStores(st, services, first)
  {
    var once := PassStores(st, services, first);
    PassAccepted(st, services, first);
    PassAccepted(once, services, second);
    var p, r := PolicyWrites(services), RoleWrites(services);
    assert (st.policies + p) + p == st.policies + p;
    assert (st.roles + r) + r == st.roles + r;
  }

  /** A policy name no service renders keeps its entry, or its absence, through a pass. */
  lemma {:induction false} PassKeepsOtherPolicies(st: Stores, services: seq<Service>, replies: seq<Replies>, name: string)
    requires |replies| == |services|
    requires forall i :: 0 <= i < |services| ==> PolicyName(services[i]) != name
    ensures var after := PassStores(st, services, replies).policies;
            (name in after <==> name in st.policies) && (name in after ==> after[name] == st.policies[name])
  {
    if services != [] {
      var n := |services| - 1;
      PassKeepsOtherPolicies(st, services[..n], replies[..n], name);
      StepEffect(PassStores(st, services[..n], replies[..n]), services[n], replies[n]);
    }
  }

  /** A role path no service renders keeps its entry, or its absence, through a pass. */
  lemma {:induction false} PassKeepsOtherRoles(st: Stores, services: seq<Service>, replies: seq<Replies>, path: string)
    requires |replies| == |services|
    requires forall i :: 0 <= i < |services| ==> RolePath(services[i]) != path
    ensures var after := PassStores(st, services, replies).roles;
            (path in after <==> path in st.roles) && (path in after ==> after[path] == st.roles[path])
  {
    if services != [] {
      var n := |services| - 1;
      PassKeepsOtherRoles(st, services[..n], replies[..n], path);
      StepEffect(PassStores(st, services[..n], replies[..n]), services[n], replies[n]);
    }
  }

  /**
   * The last service to render a policy name decides its rule: an earlier
   * service with the same name is overwritten, not reported.
   */
  lemma LastPolicyWriteWins(services: seq<Service>, i: nat)
    requires i < |services|
    requires forall j :: i < j < |services| ==> PolicyName(services[j]) != PolicyName(services[i])
    ensures PolicyName(services[i]) in PolicyWrites(services)
    ensures PolicyWrites(services)[PolicyName(services[i])] == PolicyRule(services[i])
  {
    LastWins(services, PolicyName, PolicyRule, i);
  }

  /** Likewise the last service to render a role path decides its payload. */
  lemma LastRoleWriteWins(services: seq<Service>, i: nat)
    requires i < |services|
    requires forall j :: i < j < |services| ==> RolePath(services[j]) != RolePath(services[i])
    ensures RolePath(services[i]) in RoleWrites(services)
    ensures RoleWrites(services)[RolePath(services[i])] == RoleData(PolicyName(services[i]), services[i])
  {
    LastWins(services, RolePath, RoleEntry, i);
  }

  /**
   * Two services of one context colliding on the joined namespace and name,
   * both accepted in that order: the second one's rule and role are what the
   * stores keep, and the first one's are lost.
   */
  lemma CollisionOverwrites(st: Stores, s1: Service, s2: Service, replies: seq<Replies>)
    requires s1.context == s2.context
    requires s1.namespace + "-" + s1.name == s2.namespace + "-" + s2.name
    requires |replies| == 2 && AllAccepted(replies)
    ensures var after := PassStores(st, [s1, s2], replies);
            && PolicyName(s1) in after.policies && after.policies[PolicyName(s1)] == PolicyRule(s2)
            && RolePath(s1) in after.roles && after.roles[RolePath(s1)] == RoleData(PolicyName(s2), s2)
  {
    SharedNames(s1, s2);
    PassAccepted(st, [s1, s2], replies);
    LastPolicyWriteWins([s1, s2], 1);
    LastRoleWriteWins([s1, s2], 1);
  }

  /** The three outcomes of one service, by what the two stores answer. */
  lemma StepOutcomeCases(s: Service, r: Replies)
    ensures StepOutcome(s, r)
         == if !r.policyStore then Outcome(Reply("", Some(StoreError)), Reply("", Some(ValidationError)))
            else if !r.roleStore then Outcome(Reply(PolicyName(s), None), Reply("", Some(StoreError)))
            else Outcome(Reply(PolicyName(s), None), Reply(RolePath(s), None))
  {
    AddPolicyOutcome(s, r.policyStore);
    ComposedPolicyAccepted(s);
  }
}
