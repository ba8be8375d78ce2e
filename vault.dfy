/**
 * The Vault side (main.go:141-188): the policy and role names, documents and
 * payloads derived from a `Service`, and the client whose two writes upsert
 * them into Vault's policy store and Kubernetes-auth role store.
 */
module Vault {
  import opened Wrappers
  import opened Services
  import opened Templates

  /*
   * The three templates of main.go:170, 171-173 and 149, given by their
   * pieces; each template's text is the text the pieces are written as, so
   * `{{.Context}}-{{.Namespace}}-{{.Name}}` for the policy name.
   */
  const PolicyNamePieces: seq<Piece> :=
    [Action(Context), Text("-"), Action(Namespace), Text("-"), Action(Name)]
  const PolicyRulePieces: seq<Piece> :=
    [Text(RuleHead), Action(Context), Text("/"), Action(Namespace), Text("/"), Action(Name), Text(RuleTail)]
  const RolePathPieces: seq<Piece> :=
    [Text(RoleHead), Action(Context), Action(Namespace), Text("-"), Action(Name), Text("-role")]

  const PolicyNameTemplate: string := Source(PolicyNamePieces)
  const PolicyRuleTemplate: string := Source(PolicyRulePieces)
  const RolePathTemplate: string := Source(RolePathPieces)

  const RuleHead: string := "path \"secret/data/"
  /*
   * The rest of the rule: the path's wildcard and the capability block. It is
   * kept in short literals around its one brace, so that the absence of a
   * `{`, which the parser depends on, is checked on each short literal
   * rather than on one long one, which the verifier handles slowly.
   */
  const RuleTail: string := "/*\" " + "{" + RuleBody
  const RuleBody: string := "\n\t\tcapabilities = [" + Capabilities + "]\n\t  }"
  /** The five capabilities every policy grants on its path, in short literals for the same reason. */
  const Capabilities: string := "\"create\", \"read\", " + "\"update\", \"delete\", " + "\"list\""
  const RoleHead: string := "auth/kubernetes/role/"

  /** Vault's baseline policy, which every role also carries. */
  const DefaultPolicy: string := "default"

  /** The token lifetime every role is given. */
  const RoleTtl: string := "15m"

  /** The errors addPolicy and writeRole return. */
  datatype Error =
    | TemplateError    // a template rendered to "" ("something wrong with parsing templates")
    | ValidationError  // the policy handed to writeRole is "" or "default"
    | StoreError       // Vault refused the write

  /** What addPolicy and writeRole return: a string, and an error or none. */
  datatype Reply = Reply(value: string, error: Option<Error>)

  /** The data written for a role, one field per payload key. */
  datatype RolePayload = RolePayload(
    boundServiceAccountNames: string,
    boundServiceAccountNamespaces: string,
    policies: seq<string>,
    ttl: string)

  // ---------------------------------------------------------------------------
  // Derived names, documents and payloads
  // ---------------------------------------------------------------------------

  function PolicyName(s: Service): string
  {
    Rendered(PolicyNameTemplate, s)
  }

  function PolicyRule(s: Service): string
  {
    Rendered(PolicyRuleTemplate, s)
  }

  function RolePath(s: Service): string
  {
    Rendered(RolePathTemplate, s)
  }

  /** The payload writeRole writes for `s` bound to `policy`. */
  function RoleData(policy: string, s: Service): RolePayload
  {
    RolePayload(s.accountName, s.namespace, [DefaultPolicy, policy], RoleTtl)
  }

  /** writeRole's gate: a policy that is defined and not the baseline one. */
  predicate PolicyAccepted(policy: string)
  {
    policy != "" && policy != DefaultPolicy
  }

  /** addPolicy's reply, given whether the policy store accepts the write. */
  function AddPolicyResult(s: Service, storeAccepts: bool): (r: Reply)
    ensures r.error.None? <==> r.value != ""
    ensures r.error.None? ==> storeAccepts && r.value == PolicyName(s)
  {
    if PolicyName(s) == "" || PolicyRule(s) == "" then Reply("", Some(TemplateError))
    else if !storeAccepts then Reply("", Some(StoreError))
    else Reply(PolicyName(s), None)
  }

  /** writeRole's reply, given whether the role store accepts the write. */
  function WriteRoleResult(policy: string, s: Service, storeAccepts: bool): (r: Reply)
    ensures !PolicyAccepted(policy) ==> r == Reply("", Some(ValidationError))
  {
    if !PolicyAccepted(policy) then Reply("", Some(ValidationError))
    else if !storeAccepts then Reply("", Some(StoreError))
    else Reply(RolePath(s), None)
  }

  // ---------------------------------------------------------------------------
  // What the three templates render to
  // ---------------------------------------------------------------------------

  lemma NoBraceLiteral(t: string)
    requires t != [] && '{' !in t
    ensures LiteralText(t)
  {
    assert t[|t| - 1] in t;
    forall j | 0 <= j < |t| - 1 ensures t[j] != '{' {
      assert t[j] in t;
    }
  }

  /** A literal with a single brace that is not followed by another. */
  lemma OneBraceLiteral(a: string, b: string)
    requires '{' !in a && b != [] && '{' !in b
    ensures LiteralText(a + "{" + b)
  {
    var t := a + "{" + b;
    assert t[|t| - 1] == b[|b| - 1] && b[|b| - 1] in b;
    forall j | 0 <= j < |t| - 1 ensures !(t[j] == '{' && t[j + 1] == '{') {
      if j < |a| {
        assert t[j] == a[j] && a[j] in a;
      } else if j == |a| {
        assert t[j + 1] == b[0] && b[0] in b;
      } else {
        assert t[j] == b[j - |a| - 1] && b[j - |a| - 1] in b;
      }
    }
  }

  lemma Append5<T>(a: seq<T>, b: seq<T>, c: seq<T>, d: seq<T>, e: seq<T>)
    ensures a + (b + (c + (d + (e + [])))) == a + b + c + d + e
  {
    assert e + [] == e;
  }

  lemma PolicyNameParses()
    ensures Parse(PolicyNameTemplate) == Some(PolicyNamePieces)
  {
    NoBraceLiteral("-");
    assert WellFormed(PolicyNamePieces);
    ParseSource(PolicyNamePieces);
  }

  lemma PolicyNameRenders(s: Service)
    ensures Render(PolicyNamePieces, s) == Escape(s.context) + "-" + Escape(s.namespace) + "-" + Escape(s.name)
  {
    var p5 := [Action(Name)] + [];
    var p4 := [Text("-")] + p5;
    var p3 := [Action(Namespace)] + p4;
    var p2 := [Text("-")] + p3;
    assert PolicyNamePieces == [Action(Context)] + p2;
    RenderCons(Action(Name), [], s);
    RenderCons(Text("-"), p5, s);
    RenderCons(Action(Namespace), p4, s);
    RenderCons(Text("-"), p3, s);
    RenderCons(Action(Context), p2, s);
    Append5(Escape(s.context), "-", Escape(s.namespace), "-", Escape(s.name));
  }

  /** The policy name is `{context}-{namespace}-{name}`, each field escaped. */
  lemma PolicyNameRendered(s: Service)
    ensures PolicyName(s) == Escape(s.context) + "-" + Escape(s.namespace) + "-" + Escape(s.name)
  {
    PolicyNameParses();
    PolicyNameRenders(s);
  }

  lemma Append6<T>(a: seq<T>, b: seq<T>, c: seq<T>, d: seq<T>, e: seq<T>, f: seq<T>)
    ensures a + (b + (c + (d + (e + (f + []))))) == a + b + c + d + e + f
  {
    assert f + [] == f;
  }

  lemma Append7<T>(a: seq<T>, b: seq<T>, c: seq<T>, d: seq<T>, e: seq<T>, f: seq<T>, g: seq<T>)
    ensures a + (b + (c + (d + (e + (f + (g + [])))))) == a + b + c + d + e + f + g
  {
    assert g + [] == g;
  }

  lemma HeadsLiteral()
    ensures LiteralText(RuleHead) && LiteralText(RoleHead)
  {
    NoBraceLiteral(RuleHead);
    NoBraceLiteral(RoleHead);
  }

  lemma RuleTailLiteral()
    ensures LiteralText(RuleTail)
  {
    assert '{' !in "\"create\", \"read\", ";
    assert '{' !in "\"update\", \"delete\", ";
    assert '{' !in "\"list\"";
    assert '{' !in "\n\t\tcapabilities = [";
    assert '{' !in "]\n\t  }";
    assert '{' !in RuleBody;
    OneBraceLiteral("/*\" ", RuleBody);
  }

  lemma PolicyRuleParses()
    ensures Parse(PolicyRuleTemplate) == Some(PolicyRulePieces)
  {
    NoBraceLiteral("/");
    HeadsLiteral();
    RuleTailLiteral();
    assert WellFormed(PolicyRulePieces);
    ParseSource(PolicyRulePieces);
  }

  lemma PolicyRuleRenders(s: Service)
    ensures Render(PolicyRulePieces, s)
         == RuleHead + Escape(s.context) + "/" + Escape(s.namespace) + "/" + Escape(s.name) + RuleTail
  {
    var p7 := [Text(RuleTail)] + [];
    var p6 := [Action(Name)] + p7;
    var p5 := [Text("/")] + p6;
    var p4 := [Action(Namespace)] + p5;
    var p3 := [Text("/")] + p4;
    var p2 := [Action(Context)] + p3;
    assert PolicyRulePieces == [Text(RuleHead)] + p2;
    RenderCons(Text(RuleTail), [], s);
    RenderCons(Action(Name), p7, s);
    RenderCons(Text("/"), p6, s);
    RenderCons(Action(Namespace), p5, s);
    RenderCons(Text("/"), p4, s);
    RenderCons(Action(Context), p3, s);
    RenderCons(Text(RuleHead), p2, s);
    Append7(RuleHead, Escape(s.context), "/", Escape(s.namespace), "/", Escape(s.name), RuleTail);
  }

  // The rule grants the five capabilities on the paths under
  // secret/data/{context}/{namespace}/{name}/, each field escaped.
  lemma PolicyRuleRendered(s: Service)
    ensures PolicyRule(s)
         == RuleHead + Escape(s.context) + "/" + Escape(s.namespace) + "/" + Escape(s.name) + RuleTail
  {
    PolicyRuleParses();
    PolicyRuleRenders(s);
  }

  lemma RolePathParses()
    ensures Parse(RolePathTemplate) == Some(RolePathPieces)
  {
    NoBraceLiteral("-");
    NoBraceLiteral("-role");
    HeadsLiteral();
    assert WellFormed(RolePathPieces);
    ParseSource(RolePathPieces);
  }

  lemma RolePathRenders(s: Service)
    ensures Render(RolePathPieces, s)
         == RoleHead + Escape(s.context) + Escape(s.namespace) + "-" + Escape(s.name) + "-role"
  {
    var p6 := [Text("-role")] + [];
    var p5 := [Action(Name)] + p6;
    var p4 := [Text("-")] + p5;
    var p3 := [Action(Namespace)] + p4;
    var p2 := [Action(Context)] + p3;
    assert RolePathPieces == [Text(RoleHead)] + p2;
    RenderCons(Text("-role"), [], s);
    RenderCons(Action(Name), p6, s);
    RenderCons(Text("-"), p5, s);
    RenderCons(Action(Namespace), p4, s);
    RenderCons(Action(Context), p3, s);
    RenderCons(Text(RoleHead), p2, s);
    Append6(RoleHead, Escape(s.context), Escape(s.namespace), "-", Escape(s.name), "-role");
  }

  /**
   * The role path is `auth/kubernetes/role/{context}{namespace}-{name}-role`,
   * each field escaped: context and namespace are joined with no separator.
   */
  lemma RolePathRendered(s: Service)
    ensures RolePath(s)
         == RoleHead + Escape(s.context) + Escape(s.namespace) + "-" + Escape(s.name) + "-role"
  {
    RolePathParses();
    RolePathRenders(s);
  }

  // ---------------------------------------------------------------------------
  // Properties of the derivations
  // ---------------------------------------------------------------------------

  /** With fields free of HTML-special characters, nothing is escaped. */
  lemma PlainPolicyName(s: Service)
    requires Plain(s.context) && Plain(s.namespace) && Plain(s.name)
    ensures PolicyName(s) == s.context + "-" + s.namespace + "-" + s.name
  {
    EscapeIdentity(s.context);
    EscapeIdentity(s.namespace);
    EscapeIdentity(s.name);
    PolicyNameRendered(s);
  }

  lemma PlainPolicyRule(s: Service)
    requires Plain(s.context) && Plain(s.namespace) && Plain(s.name)
    ensures PolicyRule(s) == RuleHead + s.context + "/" + s.namespace + "/" + s.name + RuleTail
  {
    EscapeIdentity(s.context);
    EscapeIdentity(s.namespace);
    EscapeIdentity(s.name);
    PolicyRuleRendered(s);
  }

  lemma PlainRolePath(s: Service)
    requires Plain(s.context) && Plain(s.namespace) && Plain(s.name)
    ensures RolePath(s) == RoleHead + s.context + s.namespace + "-" + s.name + "-role"
  {
    EscapeIdentity(s.context);
    EscapeIdentity(s.namespace);
    EscapeIdentity(s.name);
    RolePathRendered(s);
  }

  /**
   * A composed policy name always holds a '-' and at least two characters, so
   * it is never "" nor "default": the gate of writeRole never rejects it.
   */
  lemma ComposedPolicyAccepted(s: Service)
    ensures '-' in PolicyName(s) && |PolicyName(s)| >= 2
    ensures PolicyAccepted(PolicyName(s))
    ensures PolicyRule(s) != "" && RolePath(s) != ""
  {
    PolicyNameRendered(s);
    PolicyRuleRendered(s);
    RolePathRendered(s);
    DashJoined(Escape(s.context), Escape(s.namespace), Escape(s.name));
  }

  lemma DashJoined(a: string, b: string, c: string)
    ensures var n := a + "-" + b + "-" + c;
            '-' in n && |n| >= 2 && PolicyAccepted(n)
  {
    var n := a + "-" + b + "-" + c;
    assert n[|a|] == '-';
    assert '-' !in DefaultPolicy;
  }

  /** addPolicy never meets an empty rendering: it fails exactly when the store does. */
  lemma AddPolicyOutcome(s: Service, storeAccepts: bool)
    ensures AddPolicyResult(s, storeAccepts)
         == if storeAccepts then Reply(PolicyName(s), None) else Reply("", Some(StoreError))
  {
    ComposedPolicyAccepted(s);
  }

  /**
   * The policy-then-role sequence for one service: the role is bound exactly
   * when both stores accept, and a failed composition hands "" to writeRole,
   * which then fails validation.
   */
  lemma ComposeThenBind(s: Service, policyAccepts: bool, roleAccepts: bool)
    ensures var c := AddPolicyResult(s, policyAccepts);
            var b := WriteRoleResult(c.value, s, roleAccepts);
            && (b.error.None? <==> policyAccepts && roleAccepts)
            && (b.error.None? ==> b.value == RolePath(s) && b.value != "")
            && (b.error.Some? ==> b.value == "")
            && (!policyAccepts ==> c.value == "" && b.error == Some(ValidationError))
            && (policyAccepts && !roleAccepts ==> b.error == Some(StoreError))
  {
    AddPolicyOutcome(s, policyAccepts);
    ComposedPolicyAccepted(s);
  }

  /**
   * Two services of one context whose namespace and name, joined by '-', are
   * the same string get the same policy name and the same role path.
   */
  lemma SharedNames(s1: Service, s2: Service)
    requires s1.context == s2.context
    requires s1.namespace + "-" + s1.name == s2.namespace + "-" + s2.name
    ensures PolicyName(s1) == PolicyName(s2)
    ensures RolePath(s1) == RolePath(s2)
  {
    JoinedNames(s1);
    JoinedNames(s2);
  }

  /** The renderings of a service depend on its namespace and name only through their join. */
  lemma JoinedNames(s: Service)
    ensures PolicyName(s) == Escape(s.context) + "-" + Escape(s.namespace + "-" + s.name)
    ensures RolePath(s) == RoleHead + Escape(s.context) + Escape(s.namespace + "-" + s.name) + "-role"
  {
    var c, n, m := Escape(s.context), Escape(s.namespace), Escape(s.name);
    var joined := Escape(s.namespace + "-" + s.name);
    EscapeDashJoin(s.namespace, s.name);
    assert joined == n + ("-" + m);
    PolicyNameRendered(s);
    Regroup(c, "-", n, "-", m);
    RolePathRendered(s);
    Regroup(RoleHead + c, n, "-", m, "-role");
  }

  lemma Regroup<T>(a: seq<T>, b: seq<T>, c: seq<T>, d: seq<T>, e: seq<T>)
    ensures a + b + c + d + e == a + b + (c + (d + e))
    ensures a + b + c + d + e == a + (b + (c + d)) + e
  {
  }

  lemma EscapeDashJoin(a: string, b: string)
    ensures Escape(a + "-" + b) == Escape(a) + ("-" + Escape(b))
  {
    EscapeAppend(a, "-" + b);
    EscapeAppend("-", b);
    assert Escape("-") == "-";
    assert a + "-" + b == a + ("-" + b);
  }


  /** Namespace `a-b` with service `c`, and namespace `a` with service `b-c`, collide. */
  lemma CollidingExample(s1: Service, s2: Service)
    requires s1.context == s2.context
    requires s1.namespace == "a-b" && s1.name == "c"
    requires s2.namespace == "a" && s2.name == "b-c"
    ensures s1 != s2
    ensures PolicyName(s1) == PolicyName(s2) && RolePath(s1) == RolePath(s2)
  {
    assert s1.namespace != s2.namespace;
    assert s1.namespace + "-" + s1.name == s2.namespace + "-" + s2.name;
    SharedNames(s1, s2);
  }

  /** The service `api` in namespace `billing` of context `prod`, running as `api-sa`. */
  const Example: Service := Service("api", "prod", "billing", "api-sa")

  lemma ExamplePlain()
    ensures Plain(Example.context) && Plain(Example.namespace) && Plain(Example.name)
  {
    assert Plain("prod");
    assert Plain("billing");
    assert Plain("api");
  }

  /*
   * The example's fields joined the ways the three templates join them. The
   * fields are parameters required to equal the example's values, rather than
   * literals, so that comparing the joined text with the expected literal is
   * done away from the template functions, where it stays cheap.
   */
  lemma ExampleNameString(context: string, namespace: string, name: string)
    requires context == "prod" && namespace == "billing" && name == "api"
    ensures context + "-" + namespace + "-" + name == "prod-billing-api"
  {
  }

  lemma ExampleRuleString(context: string, namespace: string, name: string)
    requires context == "prod" && namespace == "billing" && name == "api"
    ensures RuleHead + context + "/" + namespace + "/" + name == "path \"secret/data/prod/billing/api"
  {
  }

  lemma ExamplePathString(context: string, namespace: string, name: string)
    requires context == "prod" && namespace == "billing" && name == "api"
    ensures RoleHead + context + namespace + "-" + name + "-role" == "auth/kubernetes/role/prodbilling-api-role"
  {
  }

  /** The example's policy is named `prod-billing-api`. */
  lemma ExamplePolicyName(s: Service)
    requires s == Example
    ensures PolicyName(s) == "prod-billing-api"
  {
    ExamplePlain();
    PlainPolicyName(s);
    ExampleNameString(s.context, s.namespace, s.name);
  }

  // The example's rule is on the paths under secret/data/prod/billing/api/.
  lemma ExamplePolicyRule(s: Service)
    requires s == Example
    ensures PolicyRule(s) == "path \"secret/data/prod/billing/api" + RuleTail
  {
    ExamplePlain();
    PlainPolicyRule(s);
    ExampleRuleString(s.context, s.namespace, s.name);
  }

  /** The example's role path joins context and namespace: `prodbilling`. */
  lemma ExampleRolePath(s: Service)
    requires s == Example
    ensures RolePath(s) == "auth/kubernetes/role/prodbilling-api-role"
  {
    ExamplePlain();
    PlainRolePath(s);
    ExamplePathString(s.context, s.namespace, s.name);
  }

  /** The example's role carries ["default", "prod-billing-api"] for 15 minutes. */
  lemma ExampleRoleData(s: Service)
    requires s == Example
    ensures RoleData(PolicyName(s), s) == RolePayload("api-sa", "billing", ["default", "prod-billing-api"], "15m")
  {
    ExamplePolicyName(s);
  }

  // ---------------------------------------------------------------------------
  // The Vault client
  // ---------------------------------------------------------------------------

  /**
   * The client, seen through the two stores it writes: policy name to rule
   * document, and role path to role payload. Whether Vault accepts a write is
   * given to each operation as `storeAccepts`.
   */
  class Client {
    var policies: map<string, string>
    var roles: map<string, RolePayload>

    constructor (policies: map<string, string>, roles: map<string, RolePayload>)
      ensures this.policies == policies && this.roles == roles
    {
      this.policies := policies;
      this.roles := roles;
    }

    /**
     * addPolicy: renders the policy name and rule; if both are non-empty and
     * the store accepts, upserts name to rule and returns the name.
     */
    method AddPolicy(s: Service, storeAccepts: bool) returns (policy: string, err: Option<Error>)
      modifies this
      ensures Reply(policy, err) == AddPolicyResult(s, storeAccepts)
      ensures err.None? ==> policies == old(policies)[policy := PolicyRule(s)]
      ensures err.Some? ==> policies == old(policies)
      ensures roles == old(roles)
    {
      var policyName := ParseTemplate(PolicyNameTemplate, s);
      var policyRule := ParseTemplate(PolicyRuleTemplate, s);
      if policyName == "" || policyRule == "" {
        return "", Some(TemplateError);
      }
      if !storeAccepts {
        return "", Some(StoreError);
      }
      policies := policies[policyName := policyRule];
      return policyName, None;
    }

    /**
     * writeRole: rejects "" and "default", then renders the role path and
     * upserts the payload binding the service account to ["default", policy]
     * for 15 minutes, returning the path if the store accepts.
     */
    method WriteRole(policy: string, s: Service, storeAccepts: bool) returns (path: string, err: Option<Error>)
      modifies this
      ensures Reply(path, err) == WriteRoleResult(policy, s, storeAccepts)
      ensures err.None? ==> roles == old(roles)[path := RoleData(policy, s)]
      ensures err.Some? ==> roles == old(roles)
      ensures policies == old(policies)
    {
      if !PolicyAccepted(policy) {
        return "", Some(ValidationError);
      }
      var policyList := [DefaultPolicy];
      var rolePath := ParseTemplate(RolePathTemplate, s);
      var data := RolePayload(s.accountName, s.namespace, policyList + [policy], RoleTtl);
      assert data == RoleData(policy, s) by {
        assert policyList + [policy] == [DefaultPolicy, policy];
      }
      if !storeAccepts {
        return "", Some(StoreError);
      }
      roles := roles[rolePath := data];
      return rolePath, None;
    }
  }

}
