# Kubernetes-to-Vault reconciler, modelled in Dafny

The program takes every Deployment in the current Kubernetes context. For each
one it builds a `Service` descriptor: name, context, namespace, and service
account. An empty service account becomes `default`. The program then makes
sure Vault holds two things for each service:

- a policy named `<context>-<namespace>-<name>`. The policy grants create,
  read, update, delete and list on `secret/data/<context>/<namespace>/<name>/*`.
- a Kubernetes-auth role at `auth/kubernetes/role/<context><namespace>-<name>-role`.
  The role binds the service account and namespace to the policies
  `["default", <policy>]`, with a 15-minute token lifetime.

Names, rules and paths are rendered from Go `html/template` texts, so every
substituted value is HTML-escaped. Before it binds a role, `writeRole` refuses
a policy that is `""` or `"default"`. The loop reports each error and carries
on. It never aborts.

The model is split into four modules:

- `Services` (`services.dfy`): the descriptor, account-name defaulting, and the
  collection loop.
- `Templates` (`templates.dfy`):
  - the subset of template syntax the program uses: literal text, plus the
    actions `{{.Name}}`, `{{.Context}}`, `{{.Namespace}}` and `{{.AccountName}}`;
  - a parser for it: a template parses to given pieces exactly when the
    pieces are well-formed (text pieces non-empty, free of `{{`, followed by
    an action or the end, and not ending in `{` before an action) and are
    written as that template;
  - `html/template`'s text-context escaper;
  - `parseTemplate` as a method that fills a buffer piece by piece.
- `Vault` (`vault.dfy`):
  - the three templates;
  - what each template renders to, proved in closed form with escaping;
  - the reply functions of `addPolicy` and `writeRole`;
  - the `Client` class, whose two methods upsert into a policy store and a
    role store, held as `map` fields.
- `Reconcile` (`reconcile.dfy`): the driver loop, specified by
  `StepOutcome`/`StepStores`/`PassStores`, and properties of a whole pass:
  - the closed form when every write is accepted;
  - idempotence of a second pass;
  - keys no service touches stay unchanged;
  - the last write wins on a name collision.

`Wrappers` (`wrappers.dfy`) holds `Option`.

Whether Vault accepts a write is an input: one `bool` per write. The program
cannot see the store's internals, so a refused write is modelled as changing
nothing.

For the example service `api` in namespace `billing` of context `prod`, the
code renders the role path `auth/kubernetes/role/prodbilling-api-role`
(main.go:149): context and namespace are joined with no separator.

## Model

| member | source | states |
|---|---|---|
| Services.ServiceOf | main.go:74-83 | name and namespace come from the deployment and context is the current one; the account is the deployment's own when it names one, and `"default"` otherwise; the account is never empty |
| Services.ServicesOf | main.go:73-88 | as many descriptors as listed deployments, the i-th being `ServiceOf` of the i-th deployment |
| Services.CollectServices | main.go:69-88 | the loop's result is `ServicesOf`: one descriptor per listed deployment, in listing order, each equal to `ServiceOf` of its deployment; all descriptors share the context and have a non-empty account |
| Templates.EscapeChar | main.go:199 | exactly the seven HTML-special characters (NUL, `"`, `&`, `'`, `+`, `<`, `>`) are rewritten; every character yields at least one character |
| Templates.Escape | main.go:199 | escaping never shortens a value |
| Templates.EscapeIdentity | main.go:199 | a value is written unchanged if and only if it has no HTML-special character |
| Templates.EscapeNeutralises | main.go:199 | apart from `&`, which starts an entity, no HTML-special character appears in escaped output |
| Templates.EscapeAppend | main.go:199 | escaping the concatenation of two values equals concatenating their escapes |
| Templates.ParseAction | main.go:194 | a field action is recognised only when the text starts with that action's exact source; nothing is recognised if and only if the text starts with none of the four |
| Templates.ParseSound | main.go:194-197 | a successful parse gives pieces whose source text is the template |
| Templates.ParseSource | main.go:194-197 | well-formed pieces (each text piece non-empty, free of `{{`, followed by an action or the end, and not ending in `{` when an action follows) parse back from their own source text |
| Templates.ParseWellFormed | main.go:194-197 | every successful parse yields well-formed pieces, so `ParseSource` covers every parse result |
| Templates.ParseExactly | main.go:194-197 | a template parses to given pieces if and only if the pieces are well-formed and written as that template |
| Templates.Parse | main.go:194 | defines the parse of a template text: `{{` must start one of the four field actions, everything else is literal text, adjacent literal characters form one piece; its properties are `ParseSound`, `ParseSource`, `ParseWellFormed` and `ParseExactly` |
| Templates.Rendered | main.go:194-205 | defines parseTemplate's result: `""` when the text does not parse, else the pieces rendered for the service with each field escaped |
| Templates.ParseTemplate | main.go:190-206 | the buffer holds the template rendered for the service, each action writing its escaped field; a template that does not parse yields `""` |
| Vault.RoleData | main.go:146-157 | defines the role payload: the service's account and namespace, the policies `["default", <policy>]`, ttl `15m` |
| Vault.AddPolicyResult | main.go:178-187 | `""` with a template error when a rendering is empty, `""` with a store error when the store refuses, else the policy name; an error comes exactly with `""`, and success needs the store's acceptance |
| Vault.WriteRoleResult | main.go:141-144 | a policy that is `""` or `"default"` gets a validation error and an empty path |
| Vault.PolicyNameRendered | main.go:170-177 | the policy name is escaped context, `-`, escaped namespace, `-`, escaped name |
| Vault.PolicyRuleRendered | main.go:171-178 | the rule is `path "secret/data/` then the escaped context, namespace and name separated by `/`, then `/*"` and the five-capability block |
| Vault.RolePathRendered | main.go:147-150 | the role path is `auth/kubernetes/role/`, escaped context and namespace with no separator, `-`, escaped name, `-role` |
| Vault.PlainPolicyName | main.go:170-177 | fields with no special characters give the name as the plain join with `-` |
| Vault.PlainPolicyRule | main.go:171-178 | likewise the rule contains the plain path `<context>/<namespace>/<name>` |
| Vault.PlainRolePath | main.go:147-150 | likewise the path contains the plain `<context><namespace>-<name>` |
| Vault.ComposedPolicyAccepted | main.go:142-144 | a composed policy name contains `-` and has at least two characters, so writeRole's gate never rejects it; rule and path are never empty |
| Vault.SharedNames | main.go:149-170 | two services of one context whose namespace and name joined by `-` are equal get the same policy name and the same role path |
| Vault.JoinedNames | main.go:149-170 | the policy name and role path depend on namespace and name only through the escaped `<namespace>-<name>` |
| Vault.CollidingExample | main.go:149-170 | namespace `a-b` with service `c` and namespace `a` with service `b-c` are different services with the same policy name and role path |
| Vault.AddPolicyOutcome | main.go:175-187 | the template-error branch is never taken for these templates: addPolicy returns the policy name exactly when the store accepts, and `""` with a store error otherwise |
| Vault.ComposeThenBind | main.go:96-103 | a role is bound exactly when both stores accept, and its path is non-empty; a failed addPolicy hands `""` on, which writeRole rejects as invalid; every error comes with an empty string |
| Vault.ExamplePolicyName | main.go:170 | service `api`/`billing`/`prod` gets the policy `prod-billing-api` |
| Vault.ExamplePolicyRule | main.go:171-173 | its rule covers `secret/data/prod/billing/api/*` |
| Vault.ExampleRolePath | main.go:149-150 | its role path is `auth/kubernetes/role/prodbilling-api-role` |
| Vault.ExampleRoleData | main.go:146-157 | its role binds the account `api-sa` in `billing` to `["default", "prod-billing-api"]` for `15m` |
| Vault.Client.constructor | main.go:130-139 | a client starts from the given store contents |
| Vault.Client.AddPolicy | main.go:168-188 | the reply is `AddPolicyResult`; on success the rule is upserted under the returned name; on error the policy store is unchanged; roles are never touched |
| Vault.Client.WriteRole | main.go:141-166 | the reply is `WriteRoleResult`; on success the payload `RoleData` is upserted under the returned path; on error the role store is unchanged; policies are never touched |
| Reconcile.Step | main.go:96-106 | one iteration: its outcome is `StepOutcome` and the new stores are `StepStores` of the old |
| Reconcile.ReconcileAll | main.go:95-107 | exactly one outcome per service, in order, each `StepOutcome` of that service; no failure stops the loop; the final stores are `PassStores` of the initial ones |
| Reconcile.Run | main.go:69-107 | the whole run reports, for the i-th listed deployment, the outcome of reconciling its descriptor; the final stores are `PassStores` of the initial ones over the collected descriptors |
| Reconcile.StepEffect | main.go:96-103 | one service upserts its policy when the policy store accepts, and its role only when both stores accept; a failed role write keeps the policy |
| Reconcile.StepOutcomeCases | main.go:96-106 | the three outcomes of one service, in closed form, by what the two stores answer: a refused policy write also fails the role with a validation error, whatever the role store would answer |
| Reconcile.PassAccepted | main.go:95-107 | when every write is accepted, a pass leaves the stores as the old contents overridden by all the services' policies and roles |
| Reconcile.PassIdempotent | main.go:95-107 | a second fully accepted pass over the same services leaves the stores as the first left them |
| Reconcile.PassKeepsOtherPolicies | main.go:95-107 | a policy name that no service renders keeps its entry, or its absence, through any pass |
| Reconcile.PassKeepsOtherRoles | main.go:95-107 | a role path that no service renders keeps its entry, or its absence, through any pass |
| Reconcile.LastPolicyWriteWins | main.go:182 | among the services sharing a policy name, the last one's rule is what is written |
| Reconcile.LastRoleWriteWins | main.go:159 | among the services sharing a role path, the last one's payload is what is written |
| Reconcile.CollisionOverwrites | main.go:95-107 | two colliding services both accepted: the stores keep the second one's rule and role, and the first one's are lost |

## Left out

- Kubeconfig lookup, cluster connection, context discovery and the deployment
  listing (main.go:42-71, 208-224) are I/O. The model takes the listed
  deployments and the context as inputs.
- The error returned by the deployment listing (main.go:71) is ignored by the
  code. The model simply starts from the listed items.
- Vault client construction and the `VAULT_ADDR` environment variable
  (main.go:33, 111-139) are left out. The client is two maps.
- Vault's HTTP writes (main.go:159, 182) are left out. Whether each write is
  accepted is an input flag, and a refused write is taken to change nothing.
  Authentication, transport and Vault's own validation are not modelled.
- Printing errors and role paths (main.go:98, 103, 106) is left out. The
  driver returns the report of outcomes instead.
- Templates.ParseTemplate: models only the template syntax the program
  uses. Other Go template actions, pipelines, comments, trim markers and
  delimiters, and execution errors, are not modelled. Any `{{` that does not
  start one of the four field actions counts as a parse failure. Template
  text is taken to contain no `<`, which html/template rewrites to `&lt;` or
  reads as HTML markup; the program's templates contain none.
- Templates.Escape: models only the escaper for `html/template`'s text
  context. The templates never place an action in an attribute, script or
  URL context.
- Vault.Client.AddPolicy: the template-error branch is kept as the code has
  it. `AddPolicyOutcome` proves that this branch cannot be reached with the
  program's fixed templates.
