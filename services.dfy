/**
 * Workloads discovered in the cluster, and the `Service` descriptor built for
 * each of them before any Vault artifact is derived (main.go:20-26, 36, 69-88).
 */
module Services {

  /** The service account a pod runs under when its deployment names none. */
  const DefaultServiceAccountName: string := "default"

  /** One workload descriptor: the four values every template may mention. */
  datatype Service = Service(name: string, context: string, namespace: string, accountName: string)

  /**
   * What the reconciler reads from one listed deployment: its name, its
   * namespace and the service-account name of its pod template ("" when the
   * deployment names none).
   */
  datatype Deployment = Deployment(name: string, namespace: string, serviceAccountName: string)

  /** The descriptor of one deployment in the given cluster context. */
  function ServiceOf(d: Deployment, context: string): (s: Service)
    ensures s.name == d.name && s.namespace == d.namespace && s.context == context
    ensures s.accountName != ""
    ensures d.serviceAccountName == "" ==> s.accountName == DefaultServiceAccountName
    ensures d.serviceAccountName != "" ==> s.accountName == d.serviceAccountName
  {
    var account := if d.serviceAccountName == "" then DefaultServiceAccountName else d.serviceAccountName;
    Service(d.name, context, d.namespace, account)
  }

  /** The descriptors of the listed deployments, in listing order. */
  function ServicesOf(deployments: seq<Deployment>, context: string): (services: seq<Service>)
    ensures |services| == |deployments|
    ensures forall i :: 0 <= i < |deployments| ==> services[i] == ServiceOf(deployments[i], context)
  {
    seq(|deployments|, i requires 0 <= i < |deployments| => ServiceOf(deployments[i], context))
  }

  /**
   * The collection loop: walks the listed deployments in order and appends
   * one descriptor per deployment, all in the same context.
   */
  method CollectServices(deployments: seq<Deployment>, context: string) returns (services: seq<Service>)
    ensures services == ServicesOf(deployments, context)
    ensures forall i :: 0 <= i < |services| ==> services[i].context == context && services[i].accountName != ""
  {
    services := [];
    for i := 0 to |deployments|
      invariant |services| == i
      invariant forall k :: 0 <= k < i ==> services[k] == ServiceOf(deployments[k], context)
    {
      var serviceAccount := deployments[i].serviceAccountName;
      if serviceAccount == "" {
        serviceAccount := DefaultServiceAccountName;
      }
      var service := Service(deployments[i].name, context, deployments[i].namespace, serviceAccount);
      services := services + [service];
    }
  }

}
