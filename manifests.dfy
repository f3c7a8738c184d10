/** The Kubernetes objects the reconciler builds and reads back, with only
    the fields the system sets or looks at, and the JSON-like values that
    are handed to Helm.  How these are serialised to YAML or JSON is not
    part of the model. */
module Manifests {
  import opened Common

  /** A JSON-like document (Helm values, the registry auth document). */
  datatype Json =
    | JNull
    | JBool(b: bool)
    | JNumber(n: int)
    | JString(s: string)
    | JArray(items: seq<Json>)
    | JObject(fields: seq<(string, Json)>)

  datatype Metadata = Metadata(name: string, namespace: Option<string>, labels: Option<Entries>)

  /** An environment variable of a container: a literal value, or a key of a secret. */
  datatype EnvVar =
    | PlainVar(name: string, value: string)
    | SecretVar(name: string, secretName: string, secretKey: string)

  datatype ContainerPort = ContainerPort(containerPort: int)

  datatype VolumeMount = VolumeMount(mountPath: string, name: string)

  datatype Container = Container(
    name: string,
    image: string,
    env: seq<EnvVar>,
    ports: Option<seq<ContainerPort>>,
    volumeMounts: seq<VolumeMount>)

  /** A pod spec; only its containers are looked at. */
  datatype PodSpec = PodSpec(containers: seq<Container>)

  datatype ServicePort = ServicePort(protocol: string, port: int)

  datatype ServiceSpec = ServiceSpec(selector: Entries, ports: seq<ServicePort>, serviceType: string)

  datatype DeploymentSpec = DeploymentSpec(
    matchLabels: Entries,
    replicas: int,
    templateLabels: Entries,
    template: PodSpec)

  /** A volume claim template: name, access modes and requested storage. */
  datatype ClaimTemplate = ClaimTemplate(name: string, accessModes: seq<string>, storage: string)

  datatype StatefulSetSpec = StatefulSetSpec(
    serviceName: string,
    replicas: int,
    matchLabels: Entries,
    templateLabels: Entries,
    template: PodSpec,
    volumeClaimTemplates: Option<seq<ClaimTemplate>>)

  datatype JobSpec = JobSpec(backoffLimit: int, template: PodSpec, ttlSecondsAfterFinished: int)

  /** The counters of a job's status; `undefined` is `None`. */
  datatype JobStatus = JobStatus(failed: Option<int>, succeeded: Option<int>)

  datatype Manifest =
    | NamespaceObject(metadata: Metadata)
    | SecretObject(metadata: Metadata, secretType: string, data: Entries)
    | ServiceObject(metadata: Metadata, serviceSpec: ServiceSpec)
    | DeploymentObject(metadata: Metadata, deploymentSpec: DeploymentSpec)
    | StatefulSetObject(metadata: Metadata, statefulSetSpec: StatefulSetSpec)
    | JobObject(metadata: Metadata, jobSpec: JobSpec, status: Option<JobStatus>)
  {
    function ApiVersion(): string
    {
      match this
      case NamespaceObject(_) => "v1"
      case SecretObject(_, _, _) => "v1"
      case ServiceObject(_, _) => "v1"
      case DeploymentObject(_, _) => "apps/v1"
      case StatefulSetObject(_, _) => "apps/v1"
      case JobObject(_, _, _) => "batch/v1"
    }

    function Kind(): string
    {
      match this
      case NamespaceObject(_) => "Namespace"
      case SecretObject(_, _, _) => "Secret"
      case ServiceObject(_, _) => "Service"
      case DeploymentObject(_, _) => "Deployment"
      case StatefulSetObject(_, _) => "StatefulSet"
      case JobObject(_, _, _) => "Job"
    }

    /** The resource name `kubectl get` takes for this kind. */
    function Resource(): string
    {
      match this
      case NamespaceObject(_) => "namespace"
      case SecretObject(_, _, _) => "secret"
      case ServiceObject(_, _) => "service"
      case DeploymentObject(_, _) => "deployment"
      case StatefulSetObject(_, _) => "statefulset"
      case JobObject(_, _, _) => "job"
    }
  }
}
