/** Application records as the system server sees them (internal/systemserver/types.go). */
module Applications {
  import opened Wrappers

  datatype SharedEntrance = SharedEntrance(name: string, host: string, port: int, title: string)
  datatype SysDataEntry = SysDataEntry(group: string, svc: string, port: int, appName: string)
  datatype ProviderEntry = ProviderEntry(providerName: string)
  datatype Permission = Permission(sysData: seq<SysDataEntry>, provider: seq<ProviderEntry>)
  datatype Spec = Spec(name: string, namespace: string, sharedEntrances: seq<SharedEntrance>,
      permission: Option<Permission>)
  datatype Application = Application(namespace: string, name: string, spec: Spec)

  datatype Endpoint = Endpoint(appName: string, host: string, port: int, title: string, namespace: string)

  /** The namespace of the app's deployments and services. */
  function AppNamespace(app: Application): string {
    if app.spec.namespace == "" then app.namespace else app.spec.namespace
  }

  function ServiceHost(svc: string, namespace: string): string {
    svc + "." + namespace + ".svc.cluster.local"
  }

  /** The endpoint a shared entrance offers. */
  function EndpointOf(app: Application, se: SharedEntrance): Endpoint {
    var host := if se.host == "" then app.spec.name else se.host;
    Endpoint(app.spec.name, ServiceHost(host, AppNamespace(app)), se.port, se.title, AppNamespace(app))
  }

  /** The groups an app offers. */
  function GroupsOf(app: Application): (groups: set<string>)
    ensures forall g :: g in groups <==> g != "" && exists se :: se in app.spec.sharedEntrances && se.name == g
  {
    set se | se in app.spec.sharedEntrances && se.name != "" :: se.name
  }
}
