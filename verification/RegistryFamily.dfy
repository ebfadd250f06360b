/**
 The database resources behind model registry instances: numbered families of secrets, claims, services,
 config maps and deployments, the pod template of one database, and its change to TLS.
 */
module RegistryFamily {
  import opened Wrappers
  import opened Texts

  // ----- Names

  function Name(base: string, i: nat): string {
    base + Decimal(i)
  }

  /** No two members of a family share a name, however many there are. */
  lemma NamesDistinct(base: string, i: nat, j: nat)
    ensures Name(base, i) == Name(base, j) <==> i == j
  {
    if Name(base, i) == Name(base, j) {
      assert Name(base, i)[|base|..] == Decimal(i) && Name(base, j)[|base|..] == Decimal(j);
      DecimalRoundTrip(i);
      DecimalRoundTrip(j);
    }
  }

  /** A base without a digit at its end is read back off the first name of its family. */
  lemma FirstNameExact(fixed: string, base: string, j: nat)
    requires fixed != [] && !IsDigit(fixed[|fixed| - 1])
    ensures Name(fixed, 0) == Name(base, j) <==> fixed == base && j == 0
  {
    var a, b := Name(fixed, 0), Name(base, j);
    assert Decimal(0) == "0";
    assert forall k | |base| <= k < |b| :: b[k] == Decimal(j)[k - |base|];
    if a == b {
      assert a[|fixed| - 1] == fixed[|fixed| - 1];
      assert |base| == |fixed|;
      assert a[..|fixed|] == fixed && b[..|base|] == base;
      NamesDistinct(fixed, 0, j);
    }
  }

  const DB_BASE := "db-model-registry"

  // ----- One database

  datatype Source = Claim(claim: string) | FromConfigMap(configMap: string) | FromSecret(secret: string)

  datatype Volume = Volume(name: string, source: Source)

  datatype Mount = Mount(path: string, volume: string)

  datatype Container = Container(name: string, secretRefs: seq<string>, args: seq<string>, port: int,
      mounts: seq<Mount>)

  datatype PodTemplate = PodTemplate(labels: map<string, string>, container: Container, volumes: seq<Volume>)

  datatype Service = Service(name: string, port: int, selector: map<string, string>)

  datatype Deployment = Deployment(name: string, selector: map<string, string>, template: PodTemplate)

  datatype Error = KeyError(key: string) | AssertionError | UnboundLocal | Conflict(at: Resource)
      | NotFound(missing: Resource)

  const MYSQL := "mysql"
  const POSTGRES := "postgres"
  const MARIADB := "mariadb"
  const DEFAULT := "default"

  /** Every other back end name is treated as MySQL. */
  function Volumes(name: string, backend: string): seq<Volume> {
    if backend == POSTGRES then [Volume(name + "-postgres-data", Claim(name))]
    else if backend == MARIADB then
      [Volume(backend + "-data", Claim(name)), Volume(backend + "-config", FromConfigMap(name))]
    else [Volume(name + "-data", Claim(name))]
  }

  function Mounts(name: string, backend: string): seq<Mount> {
    if backend == POSTGRES then [Mount("/var/lib/postgresql/data", name + "-postgres-data")]
    else if backend == MARIADB then
      [Mount("/var/lib/mysql", backend + "-data"), Mount("/etc/mysql/conf.d", backend + "-config")]
    else [Mount("/var/lib/mysql", name + "-data")]
  }

  /** One entry for each environment variable that reads the secret. */
  function SecretRefs(secret: string, backend: string): seq<string> {
    if backend == POSTGRES then [secret, secret, secret]
    else [secret, secret, secret, secret] + if backend == MARIADB then [secret] else []
  }

  function Template(secret: string, name: string, backend: string): PodTemplate {
    PodTemplate(
      map["name" := name, "sidecar.istio.io/inject" := "false"]
      + if backend == MARIADB then map["app" := backend, "component" := "database"] else map[],
      Container(
        backend,
        SecretRefs(secret, backend),
        if backend == MYSQL then ["--datadir", "/var/lib/mysql/datadir"] else [],
        if backend == POSTGRES then 5432 else 3306,
        Mounts(name, backend)),
      Volumes(name, backend))
  }

  predicate Selects(selector: map<string, string>, labels: map<string, string>) {
    forall k | k in selector :: k in labels && labels[k] == selector[k]
  }

  predicate Declared(name: string, volumes: seq<Volume>) {
    exists v | v in volumes :: v.name == name
  }

  predicate MountsDeclared(mounts: seq<Mount>, volumes: seq<Volume>) {
    forall m | m in mounts :: Declared(m.volume, volumes)
  }

  predicate DistinctPaths(mounts: seq<Mount>) {
    forall i, j | 0 <= i < j < |mounts| :: mounts[i].path != mounts[j].path
  }

  predicate DistinctVolumes(volumes: seq<Volume>) {
    forall i, j | 0 <= i < j < |volumes| :: volumes[i].name != volumes[j].name
  }

  // ----- A family

  datatype Family = Family(
    secrets: seq<string>,
    claims: seq<string>,
    services: seq<Service>,
    configMaps: seq<string>,
    deployments: seq<Deployment>)

  const PORTS: map<string, int> := map[MARIADB := 3306, MYSQL := 3306, POSTGRES := 5432]

  /** The secrets, claims and config maps are told apart by their names only. */
  method GetNamedObjects(base: string, num: nat) returns (r: seq<string>)
    ensures |r| == num && forall i | 0 <= i < num :: r[i] == Name(base, i)
  {
    r := [];
    for i := 0 to num
      invariant |r| == i && forall k | 0 <= k < i :: r[k] == Name(base, k)
    {
      r := r + [Name(base, i)];
    }
  }

  method GetServiceObjects(base: string, num: nat, backend: string) returns (r: Result<seq<Service>, Error>)
    ensures r.Err? <==> backend !in PORTS
    ensures r.Err? ==> r.error == KeyError(backend)
    ensures r.Ok? ==> |r.value| == num && forall i | 0 <= i < num ::
      r.value[i] == Service(Name(base, i), PORTS[backend], map["name" := Name(base, i)])
  {
    if backend !in PORTS {
      return Err(KeyError(backend));
    }
    var port := PORTS[backend];
    var services: seq<Service> := [];
    for i := 0 to num
      invariant |services| == i
      invariant forall k | 0 <= k < i :: services[k] == Service(Name(base, k), port, map["name" := Name(base, k)])
    {
      services := services + [Service(Name(base, i), port, map["name" := Name(base, i)])];
    }
    r := Ok(services);
  }

  function Selector(name: string, backend: string): map<string, string> {
    if backend == MARIADB then map["name" := name, "app" := backend, "component" := "database"] else map["name" := name]
  }

  /** The secret is named after the fixed base, everything else after the base given. */
  function OneDeployment(base: string, i: nat, backend: string): Deployment {
    Deployment(Name(base, i), Selector(Name(base, i), backend), Template(Name(DB_BASE, i), Name(base, i), backend))
  }

  /** Where a volume of this name is mounted. */
  predicate MountedAt(t: PodTemplate, path: string, volume: Volume) {
    Mount(path, volume.name) in t.container.mounts && volume in t.volumes
  }

  /** One deployment by back end: what it selects, where its server finds its data, on which port, with which
      arguments. */
  lemma DeploymentExactly(base: string, i: nat)
    ensures var d, name := OneDeployment(base, i, "mysql"), Name(base, i);
            && d.selector == map["name" := name] && d.template.container.port == 3306
            && d.template.container.args == ["--datadir", "/var/lib/mysql/datadir"]
            && MountedAt(d.template, "/var/lib/mysql", Volume(name + "-data", Claim(name)))
    ensures var d, name := OneDeployment(base, i, "postgres"), Name(base, i);
            && d.selector == map["name" := name] && d.template.container.port == 5432
            && d.template.container.args == []
            && MountedAt(d.template, "/var/lib/postgresql/data", Volume(name + "-postgres-data", Claim(name)))
    ensures var d, name := OneDeployment(base, i, "mariadb"), Name(base, i);
            && d.selector == map["name" := name, "app" := "mariadb", "component" := "database"]
            && d.template.container.port == 3306 && d.template.container.args == []
            && MountedAt(d.template, "/var/lib/mysql", Volume("mariadb-data", Claim(name)))
            && MountedAt(d.template, "/etc/mysql/conf.d", Volume("mariadb-config", FromConfigMap(name)))
  {
    MariaDbVolumes(Name(base, i));
  }

  lemma MariaDbVolumes(name: string)
    ensures var vs, ms := Volumes(name, MARIADB), Mounts(name, MARIADB);
            && Volume("mariadb-data", Claim(name)) in vs && Volume("mariadb-config", FromConfigMap(name)) in vs
            && Mount("/var/lib/mysql", "mariadb-data") in ms && Mount("/etc/mysql/conf.d", "mariadb-config") in ms
  {
    assert "mariadb" + "-data" == "mariadb-data" && "mariadb" + "-config" == "mariadb-config";
    var vs, ms := Volumes(name, MARIADB), Mounts(name, MARIADB);
    assert vs[0] in vs && vs[1] in vs && ms[0] in ms && ms[1] in ms;
  }

  method GetDeploymentObjects(base: string, num: nat, backend: string) returns (r: seq<Deployment>)
    ensures |r| == num && forall i | 0 <= i < num :: r[i] == OneDeployment(base, i, backend)
  {
    r := [];
    for i := 0 to num
      invariant |r| == i && forall k | 0 <= k < i :: r[k] == OneDeployment(base, k, backend)
    {
      var name := Name(base, i);
      var selector := map["name" := name];
      if backend == MARIADB {
        selector := selector["app" := backend]["component" := "database"];
      }
      r := r + [Deployment(name, selector, Template(Name(DB_BASE, i), name, backend))];
    }
  }

  ghost predicate IsFamily(f: Family, base: string, num: nat, backend: string) {
    && backend in PORTS
    && |f.secrets| == |f.claims| == |f.services| == |f.deployments| == num
    && |f.configMaps| == (if backend == MARIADB then num else 0)
    && (forall i | 0 <= i < num :: f.secrets[i] == Name(base, i))
    && (forall i | 0 <= i < num :: f.claims[i] == Name(base, i))
    && (forall i | 0 <= i < |f.configMaps| :: f.configMaps[i] == Name(base, i))
    && (forall i | 0 <= i < num ::
          f.services[i] == Service(Name(base, i), PORTS[backend], map["name" := Name(base, i)]))
    && (forall i | 0 <= i < num :: f.deployments[i] == OneDeployment(base, i, backend))
  }

  method GetMetadataResources(base: string, num: nat, backend: string) returns (r: Result<Family, Error>)
    ensures r.Ok? <==> backend in PORTS
    ensures r.Err? ==> r.error == KeyError(backend)
    ensures r.Ok? ==> IsFamily(r.value, base, num, backend)
    ensures r.Ok? ==> Coherent(r.value)
  {
    var secrets := GetNamedObjects(base, num);
    var claims := GetNamedObjects(base, num);
    var services := GetServiceObjects(base, num, backend);
    if services.Err? {
      return Err(services.error);
    }
    var configMaps: seq<string> := [];
    if backend == MARIADB {
      configMaps := GetNamedObjects(base, num);
    }
    var deployments := GetDeploymentObjects(base, num, backend);
    r := Ok(Family(secrets, claims, services.value, configMaps, deployments));
    FamilyCoherent(r.value, base, num, backend);
  }

  // ----- What lines up

  predicate SourceExists(f: Family, s: Source) {
    match s
    case Claim(n) => n in f.claims
    case FromConfigMap(n) => n in f.configMaps
    case FromSecret(n) => n in f.secrets
  }

  predicate SecretRefsExist(f: Family, d: Deployment) {
    forall s | s in d.template.container.secretRefs :: s in f.secrets
  }

  /** What one deployment needs of its family, its secret apart. */
  predicate Wired(f: Family, d: Deployment) {
    && (forall v | v in d.template.volumes :: SourceExists(f, v.source))
    && MountsDeclared(d.template.container.mounts, d.template.volumes)
    && DistinctVolumes(d.template.volumes) && DistinctPaths(d.template.container.mounts)
    && Selects(d.selector, d.template.labels)
  }

  predicate NamesApart(f: Family) {
    forall i, j | 0 <= i < j < |f.deployments| :: f.deployments[i].name != f.deployments[j].name
  }

  /** A service reaches the pods of its own deployment alone, and no deployment claims another's pods. */
  predicate SelectsOwn(f: Family, i: nat, j: nat)
    requires i < |f.services| == |f.deployments| && j < |f.deployments|
  {
    && (Selects(f.services[i].selector, f.deployments[j].template.labels) <==> i == j)
    && (Selects(f.deployments[i].selector, f.deployments[j].template.labels) <==> i == j)
  }

  ghost predicate Coherent(f: Family) {
    && |f.services| == |f.deployments|
    && NamesApart(f)
    && (forall i | 0 <= i < |f.deployments| :: Wired(f, f.deployments[i]))
    && (forall i, j | 0 <= i < |f.services| && 0 <= j < |f.deployments| :: SelectsOwn(f, i, j))
    && (forall i | 0 <= i < |f.services| :: f.services[i].port == f.deployments[i].template.container.port)
  }

  lemma TemplateSelected(base: string, i: nat, j: nat, secret: string, backend: string)
    ensures Selects(map["name" := Name(base, i)], Template(secret, Name(base, j), backend).labels) <==> i == j
    ensures Selects(Selector(Name(base, i), backend), Template(secret, Name(base, j), backend).labels) <==> i == j
  {
    NamesDistinct(base, i, j);
    var labels := Template(secret, Name(base, j), backend).labels;
    assert "name" in labels && labels["name"] == Name(base, j);
    var selector := Selector(Name(base, i), backend);
    assert "name" in selector && selector["name"] == Name(base, i);
    assert "name" in map["name" := Name(base, i)];
  }

  lemma TemplateMounts(secret: string, name: string, backend: string)
    ensures var t := Template(secret, name, backend);
            && MountsDeclared(t.container.mounts, t.volumes) && DistinctVolumes(t.volumes)
            && DistinctPaths(t.container.mounts)
  {
    var volumes := Volumes(name, backend);
    assert volumes[0] in volumes;
    if backend == MARIADB {
      assert volumes[1] in volumes;
      assert volumes[0].name[|backend| + 1] == 'd' && volumes[1].name[|backend| + 1] == 'c';
    }
  }

  lemma DeploymentWired(f: Family, base: string, num: nat, backend: string, i: nat)
    requires IsFamily(f, base, num, backend) && i < num
    ensures Wired(f, f.deployments[i])
  {
    TemplateMounts(Name(DB_BASE, i), Name(base, i), backend);
    TemplateSelected(base, i, i, Name(DB_BASE, i), backend);
    assert f.claims[i] in f.claims;
    if backend == MARIADB {
      assert f.configMaps[i] in f.configMaps;
    }
  }

  lemma FamilySelectors(f: Family, base: string, num: nat, backend: string, i: nat, j: nat)
    requires IsFamily(f, base, num, backend) && i < num && j < num
    ensures SelectsOwn(f, i, j)
    ensures f.services[i].port == f.deployments[i].template.container.port
    ensures f.deployments[i].name == f.deployments[j].name <==> i == j
  {
    TemplateSelected(base, i, j, Name(DB_BASE, j), backend);
    NamesDistinct(base, i, j);
  }

  lemma AllWired(f: Family, base: string, num: nat, backend: string)
    requires IsFamily(f, base, num, backend)
    ensures |f.services| == |f.deployments|
    ensures forall i | 0 <= i < |f.deployments| :: Wired(f, f.deployments[i])
  {
    forall i | 0 <= i < num ensures Wired(f, f.deployments[i]) {
      DeploymentWired(f, base, num, backend, i);
    }
  }

  lemma AllSelectOwn(f: Family, base: string, num: nat, backend: string)
    requires IsFamily(f, base, num, backend)
    ensures |f.services| == |f.deployments|
    ensures forall i, j | 0 <= i < |f.services| && 0 <= j < |f.deployments| :: SelectsOwn(f, i, j)
  {
    forall i, j | 0 <= i < num && 0 <= j < num ensures SelectsOwn(f, i, j) {
      FamilySelectors(f, base, num, backend, i, j);
    }
  }

  lemma AllApart(f: Family, base: string, num: nat, backend: string)
    requires IsFamily(f, base, num, backend)
    ensures NamesApart(f)
    ensures |f.services| == |f.deployments|
    ensures forall i | 0 <= i < |f.services| :: f.services[i].port == f.deployments[i].template.container.port
  {
    forall i, j | 0 <= i < j < num ensures f.deployments[i].name != f.deployments[j].name {
      FamilySelectors(f, base, num, backend, i, j);
    }
  }

  lemma FamilyCoherent(f: Family, base: string, num: nat, backend: string)
    requires IsFamily(f, base, num, backend)
    ensures Coherent(f)
  {
    AllWired(f, base, num, backend);
    AllSelectOwn(f, base, num, backend);
    AllApart(f, base, num, backend);
  }

  /**
   The secrets the deployments read are in the family exactly when the family has the fixed base name, or no
   member: the name of the secret does not follow the base.
   */
  lemma SecretsExistExactly(f: Family, base: string, num: nat, backend: string)
    requires IsFamily(f, base, num, backend)
    ensures (forall i | 0 <= i < num :: SecretRefsExist(f, f.deployments[i])) <==> base == DB_BASE || num == 0
  {
    if base == DB_BASE {
      forall i | 0 <= i < num ensures SecretRefsExist(f, f.deployments[i]) {
        assert f.secrets[i] in f.secrets;
      }
    } else if num > 0 {
      var refs := f.deployments[0].template.container.secretRefs;
      assert refs[0] == Name(DB_BASE, 0) && refs[0] in refs;
      assert !IsDigit(DB_BASE[|DB_BASE| - 1]);
      forall j | 0 <= j < num ensures f.secrets[j] != refs[0] {
        FirstNameExact(DB_BASE, base, j);
      }
    }
  }

  function OneOther(): Family {
    var name := Name("other", 0);
    Family([name], [name], [Service(name, 3306, map["name" := name])], [], [OneDeployment("other", 0, MYSQL)])
  }

  /** A family of another base name, whose one deployment reads a secret that is not there. */
  lemma OtherBaseWitness()
    ensures IsFamily(OneOther(), "other", 1, MYSQL) && !SecretRefsExist(OneOther(), OneOther().deployments[0])
  {
    SecretsExistExactly(OneOther(), "other", 1, MYSQL);
    assert "other"[0] != DB_BASE[0];
  }

  // ----- Registry instances on the databases

  function Host(name: string, namespace: string): string {
    name + ("." + namespace + ".svc.cluster.local")
  }

  datatype Database = Database(host: string, passwordSecret: string, port: int)

  /** The database part of the registry instances' specifications; None leaves it to the operator. */
  method GetRegistryDatabases(namespace: string, num: nat, backend: string) returns (r: seq<Option<Database>>)
    ensures |r| == num
    ensures backend in PORTS ==> forall i | 0 <= i < num ::
      r[i] == Some(Database(Host(Name(DB_BASE, i), namespace), Name(DB_BASE, i), PORTS[backend]))
    ensures backend !in PORTS ==> forall i | 0 <= i < num :: r[i] == None
  {
    r := [];
    for i := 0 to num
      invariant |r| == i
      invariant backend in PORTS ==> forall k | 0 <= k < i ::
        r[k] == Some(Database(Host(Name(DB_BASE, k), namespace), Name(DB_BASE, k), PORTS[backend]))
      invariant backend !in PORTS ==> forall k | 0 <= k < i :: r[k] == None
    {
      var value: Option<Database> := None;
      if backend in [POSTGRES, MARIADB, MYSQL] {
        var name := Name(DB_BASE, i);
        value := Some(Database(Host(name, namespace), name, PORTS[backend]));
      }
      r := r + [value];
    }
  }

  lemma HostDistinct(namespace: string, a: string, b: string)
    ensures Host(a, namespace) == Host(b, namespace) <==> a == b
  {
    var tail := "." + namespace + ".svc.cluster.local";
    if Host(a, namespace) == Host(b, namespace) {
      SuffixCancels(a, b, tail);
    }
  }

  lemma SuffixCancels(a: string, b: string, tail: string)
    requires a + tail == b + tail
    ensures a == b
  {
    assert |a + tail| == |b + tail|;
    assert (a + tail)[..|a|] == a && (b + tail)[..|b|] == b;
  }

  /** Instance i talks to service i, on its port, with a secret of the family: for as many as there are databases. */
  lemma RegistriesReachDatabases(f: Family, dbs: seq<Option<Database>>, namespace: string, num: nat, instances: nat,
      backend: string)
    requires IsFamily(f, DB_BASE, num, backend)
    requires |dbs| == instances && forall i | 0 <= i < instances ::
      dbs[i] == Some(Database(Host(Name(DB_BASE, i), namespace), Name(DB_BASE, i), PORTS[backend]))
    ensures forall i, j | 0 <= i < instances && 0 <= j < num ::
              (dbs[i].value.host == Host(f.services[j].name, namespace) <==> i == j)
              && dbs[i].value.port == f.services[j].port
    ensures (forall i | 0 <= i < instances :: dbs[i].value.passwordSecret in f.secrets) <==> instances <= num
  {
    forall i, j | 0 <= i < instances && 0 <= j < num
      ensures dbs[i].value.host == Host(f.services[j].name, namespace) <==> i == j
    {
      NamesDistinct(DB_BASE, i, j);
      HostDistinct(namespace, Name(DB_BASE, i), Name(DB_BASE, j));
    }
    forall i | 0 <= i < instances ensures dbs[i].value.passwordSecret in f.secrets <==> i < num {
      if i < num {
        assert f.secrets[i] in f.secrets;
      } else {
        forall j | 0 <= j < num ensures f.secrets[j] != Name(DB_BASE, i) {
          NamesDistinct(DB_BASE, i, j);
        }
      }
    }
    if instances > num {
      assert dbs[num].value.passwordSecret !in f.secrets;
    }
  }

  // ----- TLS

  method AddDbCertsVolumes(declared: seq<Volume>, ca: string, backend: string) returns (volumes: seq<Volume>)
    ensures volumes == declared + CertVolumes(ca, backend)
  {
    volumes := declared;
    volumes := volumes + [Volume(ca, FromConfigMap(ca)), Volume("db-server-cert", FromSecret("db-server-cert"))];
    if backend == MYSQL {
      volumes := volumes + [Volume("db-server-key", FromSecret("db-server-key"))];
    } else if backend == POSTGRES {
      volumes := volumes + [Volume("db-ca", FromSecret("db-ca")), Volume("db-server-key", FromSecret("db-server-key"))];
    }
  }

  function CertVolumes(ca: string, backend: string): seq<Volume> {
    [Volume(ca, FromConfigMap(ca)), Volume("db-server-cert", FromSecret("db-server-cert"))]
    + if backend == MYSQL then [Volume("db-server-key", FromSecret("db-server-key"))]
      else if backend == POSTGRES then
        [Volume("db-ca", FromSecret("db-ca")), Volume("db-server-key", FromSecret("db-server-key"))]
      else []
  }

  function CertMounts(ca: string, path: string, backend: string): seq<Mount> {
    if backend == MYSQL then
      [Mount(path + "/ca", ca), Mount(path + "/server_cert", "db-server-cert"),
       Mount(path + "/server_key", "db-server-key")]
    else if backend == POSTGRES then
      [Mount(path + "/ssl-ca", "db-ca"), Mount(path + "/ssl-certs", "db-server-cert"),
       Mount(path + "/ssl-keys", "db-server-key")]
    else []
  }

  /** The certificate files in the order of their options. */
  function CertFiles(path: string, backend: string): seq<string> {
    if backend == MYSQL then
      [path + "/ca" + "/ca-bundle.crt", path + "/server_cert" + "/tls.crt", path + "/server_key" + "/tls.key"]
    else if backend == POSTGRES then
      [path + "/ssl-certs" + "/tls.crt", path + "/ssl-keys" + "/tls.key", path + "/ssl-ca" + "/ca.crt"]
    else []
  }

  /** The arguments that name them. */
  function CertArgs(files: seq<string>, backend: string): seq<string>
    requires backend == MYSQL || backend == POSTGRES ==> |files| == 3
  {
    if backend == MYSQL then ["--ssl-ca=" + files[0], "--ssl-cert=" + files[1], "--ssl-key=" + files[2]]
    else if backend == POSTGRES then
      ["postgres", "-c", "ssl=on", "-c", "ssl_cert_file=" + files[0], "-c", "ssl_key_file=" + files[1],
       "-c", "ssl_ca_file=" + files[2]]
    else []
  }

  predicate Under(file: string, mount: Mount) {
    mount.path + "/" <= file
  }

  /** Every certificate file the server is told to read lies under one of the mounts added for it. */
  lemma CertFilesMounted(ca: string, path: string, backend: string, k: nat)
    requires k < |CertFiles(path, backend)|
    ensures exists m :: m in CertMounts(ca, path, backend) && Under(CertFiles(path, backend)[k], m)
  {
    var mounts := CertMounts(ca, path, backend);
    assert mounts[0] in mounts && mounts[1] in mounts && mounts[2] in mounts;
    if backend == MYSQL {
      InDirectory(path + "/ca", "ca-bundle.crt");
      InDirectory(path + "/server_cert", "tls.crt");
      InDirectory(path + "/server_key", "tls.key");
      assert Under(CertFiles(path, backend)[k], mounts[k]);
    } else {
      InDirectory(path + "/ssl-certs", "tls.crt");
      InDirectory(path + "/ssl-keys", "tls.key");
      InDirectory(path + "/ssl-ca", "ca.crt");
      assert Under(CertFiles(path, backend)[k], mounts[if k == 2 then 0 else k + 1]);
    }
  }

  lemma InDirectory(directory: string, file: string)
    ensures directory + "/" <= directory + ("/" + file)
  {
    assert directory + ("/" + file) == directory + "/" + file;
  }

  /** An argument that sets the option to this file, where a volume with this source is mounted. */
  predicate Reads(args: seq<string>, option: string, file: string, source: Source, mounts: seq<Mount>,
                  volumes: seq<Volume>)
  {
    exists i, j, k | 0 <= i < |args| && 0 <= j < |mounts| && 0 <= k < |volumes| ::
      args[i] == option + mounts[j].path + "/" + file && volumes[k] == Volume(mounts[j].volume, source)
  }

  lemma ReadsAt(args: seq<string>, i: nat, option: string, directory: string, file: string, source: Source,
                mounts: seq<Mount>, j: nat, volumes: seq<Volume>, k: nat)
    requires i < |args| && j < |mounts| && k < |volumes|
    requires args[i] == option + (directory + ("/" + file)) && mounts[j].path == directory
    requires volumes[k] == Volume(mounts[j].volume, source)
    ensures Reads(args, option, file, source, mounts, volumes)
  {
    assert option + (directory + ("/" + file)) == option + directory + "/" + file;
  }

  /** Authority, certificate and key come from where they are kept: the authority from the config map given, the others
      from the secrets of that name. */
  lemma MySqlOptions(ca: string, path: string)
    ensures var args, mounts, volumes :=
              CertArgs(CertFiles(path, MYSQL), MYSQL), CertMounts(ca, path, MYSQL), CertVolumes(ca, MYSQL);
            && Reads(args, "--ssl-ca=", "ca-bundle.crt", FromConfigMap(ca), mounts, volumes)
            && Reads(args, "--ssl-cert=", "tls.crt", FromSecret("db-server-cert"), mounts, volumes)
            && Reads(args, "--ssl-key=", "tls.key", FromSecret("db-server-key"), mounts, volumes)
  {
    var args, mounts, volumes :=
      CertArgs(CertFiles(path, MYSQL), MYSQL), CertMounts(ca, path, MYSQL), CertVolumes(ca, MYSQL);
    SlashedFiles();
    ReadsAt(args, 0, "--ssl-ca=", path + "/ca", "ca-bundle.crt", FromConfigMap(ca), mounts, 0, volumes, 0);
    ReadsAt(args, 1, "--ssl-cert=", path + "/server_cert", "tls.crt", FromSecret("db-server-cert"), mounts, 1, volumes,
            1);
    ReadsAt(args, 2, "--ssl-key=", path + "/server_key", "tls.key", FromSecret("db-server-key"), mounts, 2, volumes,
            2);
  }

  /** Over PostgreSQL the authority has a secret too, and each option follows its flag. */
  lemma PostgresOptions(ca: string, path: string)
    ensures var args, mounts, volumes :=
              CertArgs(CertFiles(path, POSTGRES), POSTGRES), CertMounts(ca, path, POSTGRES), CertVolumes(ca, POSTGRES);
            && |args| == 9 && args[0] == "postgres" && args[2] == "ssl=on"
            && args[1] == args[3] == args[5] == args[7] == "-c"
            && Reads(args, "ssl_ca_file=", "ca.crt", FromSecret("db-ca"), mounts, volumes)
            && Reads(args, "ssl_cert_file=", "tls.crt", FromSecret("db-server-cert"), mounts, volumes)
            && Reads(args, "ssl_key_file=", "tls.key", FromSecret("db-server-key"), mounts, volumes)
  {
    var args, mounts, volumes :=
      CertArgs(CertFiles(path, POSTGRES), POSTGRES), CertMounts(ca, path, POSTGRES), CertVolumes(ca, POSTGRES);
    SlashedFiles();
    ReadsAt(args, 8, "ssl_ca_file=", path + "/ssl-ca", "ca.crt", FromSecret("db-ca"), mounts, 0, volumes, 2);
    ReadsAt(args, 4, "ssl_cert_file=", path + "/ssl-certs", "tls.crt", FromSecret("db-server-cert"), mounts, 1, volumes,
            1);
    ReadsAt(args, 6, "ssl_key_file=", path + "/ssl-keys", "tls.key", FromSecret("db-server-key"), mounts, 2, volumes,
            3);
  }

  lemma SlashedFiles()
    ensures "/" + "ca-bundle.crt" == "/ca-bundle.crt" && "/" + "ca.crt" == "/ca.crt"
    ensures "/" + "tls.crt" == "/tls.crt" && "/" + "tls.key" == "/tls.key"
  {
  }

  /** A container of a fetched deployment, changed in place. */
  class DbContainer {
    const name: string
    const secretRefs: seq<string>
    const port: int
    var args: seq<string>
    var mounts: seq<Mount>

    constructor (c: Container)
      ensures Value() == c
    {
      name, secretRefs, port, args, mounts := c.name, c.secretRefs, c.port, c.args, c.mounts;
    }

    function Value(): Container
      reads this
    {
      Container(name, secretRefs, args, port, mounts)
    }

    method ApplyDbArgsAndVolumeMounts(ca: string, path: string, backend: string)
      modifies this
      ensures args == old(args) + CertArgs(CertFiles(path, backend), backend)
      ensures mounts == old(mounts) + CertMounts(ca, path, backend)
    {
      var dbArgs, volumeMounts := args, mounts;
      if backend == MYSQL {
        dbArgs := dbArgs + [
          "--ssl-ca=" + (path + "/ca" + "/ca-bundle.crt"), "--ssl-cert=" + (path + "/server_cert" + "/tls.crt"),
          "--ssl-key=" + (path + "/server_key" + "/tls.key")];
        volumeMounts := volumeMounts + [
          Mount(path + "/ca", ca), Mount(path + "/server_cert", "db-server-cert"),
          Mount(path + "/server_key", "db-server-key")];
      } else if backend == POSTGRES {
        dbArgs := dbArgs + [
          "postgres", "-c", "ssl=on", "-c", "ssl_cert_file=" + (path + "/ssl-certs" + "/tls.crt"),
          "-c", "ssl_key_file=" + (path + "/ssl-keys" + "/tls.key"),
          "-c", "ssl_ca_file=" + (path + "/ssl-ca" + "/ca.crt")];
        volumeMounts := volumeMounts + [
          Mount(path + "/ssl-ca", "db-ca"), Mount(path + "/ssl-certs", "db-server-cert"),
          Mount(path + "/ssl-keys", "db-server-key")];
      }
      args, mounts := dbArgs, volumeMounts;
    }
  }

  /** The mount path defaults for the two back ends that have one; another one leaves it unset. */
  function MountPath(given: Option<string>, backend: string): Option<string> {
    if backend == MYSQL then Some(if given.Some? then given.value else "/etc/mysql/ssl")
    else if backend == POSTGRES then Some(if given.Some? then given.value else "/etc")
    else None
  }

  /** Where the files are read without a path given. */
  lemma DefaultMySqlFiles()
    ensures CertFiles(MountPath(None, "mysql").value, "mysql")
         == ["/etc/mysql/ssl/ca/ca-bundle.crt", "/etc/mysql/ssl/server_cert/tls.crt",
             "/etc/mysql/ssl/server_key/tls.key"]
  {
    assert "/etc/mysql/ssl" + "/ca" + "/ca-bundle.crt" == "/etc/mysql/ssl/ca/ca-bundle.crt";
    assert "/etc/mysql/ssl" + "/server_cert" + "/tls.crt" == "/etc/mysql/ssl/server_cert/tls.crt";
    assert "/etc/mysql/ssl" + "/server_key" + "/tls.key" == "/etc/mysql/ssl/server_key/tls.key";
  }

  lemma DefaultPostgresFiles()
    ensures CertFiles(MountPath(None, "postgres").value, "postgres")
         == ["/etc/ssl-certs/tls.crt", "/etc/ssl-keys/tls.key", "/etc/ssl-ca/ca.crt"]
  {
    assert "/etc" + "/ssl-certs" + "/tls.crt" == "/etc/ssl-certs/tls.crt";
    assert "/etc" + "/ssl-keys" + "/tls.key" == "/etc/ssl-keys/tls.key";
    assert "/etc" + "/ssl-ca" + "/ca.crt" == "/etc/ssl-ca/ca.crt";
  }

  /** The pod template the TLS fixture patches in, over the first container named after the back end. */
  method TlsTemplate(t: PodTemplate, ca: string, given: Option<string>, backend: string)
      returns (r: Result<PodTemplate, Error>)
    ensures r.Err? <==> t.container.name != backend || backend !in [MYSQL, POSTGRES]
    ensures r.Err? ==> r.error == if t.container.name != backend then AssertionError else UnboundLocal
    ensures r.Ok? ==>
      && r.value.labels == t.labels
      && r.value.volumes == t.volumes + CertVolumes(ca, backend)
      && r.value.container.mounts == t.container.mounts + CertMounts(ca, MountPath(given, backend).value, backend)
      && r.value.container.args
         == t.container.args + CertArgs(CertFiles(MountPath(given, backend).value, backend), backend)
      && r.value.container.secretRefs == t.container.secretRefs
    ensures r.Ok? && MountsDeclared(t.container.mounts, t.volumes) ==>
      MountsDeclared(r.value.container.mounts, r.value.volumes)
  {
    var path := MountPath(given, backend);
    if t.container.name != backend {
      return Err(AssertionError);
    }
    if path == None {
      return Err(UnboundLocal);
    }
    var container := new DbContainer(t.container);
    container.ApplyDbArgsAndVolumeMounts(ca, path.value, backend);
    var volumes := AddDbCertsVolumes(t.volumes, ca, backend);
    CertMountsDeclared(ca, path.value, backend);
    if MountsDeclared(t.container.mounts, t.volumes) {
      DeclaredMore(t.container.mounts, t.volumes, CertMounts(ca, path.value, backend), CertVolumes(ca, backend));
    }
    r := Ok(PodTemplate(t.labels, container.Value(), volumes));
  }

  lemma DeclaredMore(mounts: seq<Mount>, volumes: seq<Volume>, moreMounts: seq<Mount>, moreVolumes: seq<Volume>)
    requires MountsDeclared(mounts, volumes) && MountsDeclared(moreMounts, moreVolumes)
    ensures MountsDeclared(mounts + moreMounts, volumes + moreVolumes)
  {
    forall m | m in mounts + moreMounts ensures Declared(m.volume, volumes + moreVolumes) {
      if m in mounts {
        assert Declared(m.volume, volumes);
        var v :| v in volumes && v.name == m.volume;
        assert v in volumes + moreVolumes;
      } else {
        assert Declared(m.volume, moreVolumes);
        var v :| v in moreVolumes && v.name == m.volume;
        assert v in volumes + moreVolumes;
      }
    }
  }

  lemma CertMountsDeclared(ca: string, path: string, backend: string)
    ensures MountsDeclared(CertMounts(ca, path, backend), CertVolumes(ca, backend))
  {
    var vs := CertVolumes(ca, backend);
    assert vs[0] in vs && vs[1] in vs;
    if backend == MYSQL {
      assert vs[2] in vs;
    } else if backend == POSTGRES {
      assert vs[2] in vs && vs[3] in vs;
    }
  }

  /** Every mount of a database still names a declared volume after the change to TLS, whatever the names given. */
  lemma TlsMountsDeclared(secret: string, name: string, ca: string, path: string, backend: string)
    ensures var t := Template(secret, name, backend);
            MountsDeclared(t.container.mounts + CertMounts(ca, path, backend), t.volumes + CertVolumes(ca, backend))
  {
    var t := Template(secret, name, backend);
    TemplateMounts(secret, name, backend);
    CertMountsDeclared(ca, path, backend);
    DeclaredMore(t.container.mounts, t.volumes, CertMounts(ca, path, backend), CertVolumes(ca, backend));
  }

  lemma SuffixesDiffer(a: string, b: string, p: string, q: string)
    requires |p| > 1 && |q| > 1 && p[|p| - 2..] != q[|q| - 2..]
    ensures a + p != b + q
  {
    assert (a + p)[|a + p| - 2..] == p[|p| - 2..];
    assert (b + q)[|b + q| - 2..] == q[|q| - 2..];
  }

  lemma PrefixedDiffer(a: string, p: string, q: string)
    requires p != q
    ensures a + p != a + q
  {
    assert (a + p)[|a|..] == p && (a + q)[|a|..] == q;
  }

  lemma DistinctOfFour(vs: seq<Volume>, a: string, b: string, c: string, d: string)
    requires |vs| == 4 && vs[0].name == a && vs[1].name == b && vs[2].name == c && vs[3].name == d
    ensures DistinctVolumes(vs) <==> a != b && a != c && a != d && b != c && b != d && c != d
  {
  }

  lemma DistinctOfFive(vs: seq<Volume>, a: string, b: string, c: string, d: string, e: string)
    requires |vs| == 5 && vs[0].name == a && vs[1].name == b && vs[2].name == c && vs[3].name == d && vs[4].name == e
    ensures DistinctVolumes(vs)
            <==> a != b && a != c && a != d && a != e && b != c && b != d && b != e && c != d && c != e && d != e
  {
  }

  lemma TailDiffers(name: string, tail: string, q: string)
    requires |tail| > 1 && |q| > 1 && tail[|tail| - 2..] != q[|q| - 2..]
    ensures name + tail != q
  {
    SuffixesDiffer(name, "", tail, q);
    assert "" + q == q;
  }

  /** The volume names stay distinct exactly when the CA config map is not named like one of the others. */
  lemma TlsVolumesDistinct(name: string, ca: string, backend: string)
    requires backend == MYSQL || backend == POSTGRES
    ensures DistinctVolumes(Volumes(name, backend) + CertVolumes(ca, backend))
            <==> ca != Volumes(name, backend)[0].name && ca != "db-server-cert" && ca != "db-server-key"
                 && (backend == POSTGRES ==> ca != "db-ca")
  {
    if backend == MYSQL {
      MySqlVolumes(name, ca);
    } else {
      PostgresVolumes(name, ca);
    }
  }

  lemma MySqlVolumes(name: string, ca: string)
    ensures DistinctVolumes(Volumes(name, MYSQL) + CertVolumes(ca, MYSQL))
            <==> ca != Volumes(name, MYSQL)[0].name && ca != "db-server-cert" && ca != "db-server-key"
  {
    var vs := Volumes(name, MYSQL) + CertVolumes(ca, MYSQL);
    TailDiffers(name, "-data", "db-server-cert");
    TailDiffers(name, "-data", "db-server-key");
    DistinctOfFour(vs, name + "-data", ca, "db-server-cert", "db-server-key");
  }

  lemma PostgresVolumes(name: string, ca: string)
    ensures DistinctVolumes(Volumes(name, POSTGRES) + CertVolumes(ca, POSTGRES))
            <==> ca != Volumes(name, POSTGRES)[0].name
                 && ca != "db-server-cert" && ca != "db-server-key" && ca != "db-ca"
  {
    var vs := Volumes(name, POSTGRES) + CertVolumes(ca, POSTGRES);
    TailDiffers(name, "-postgres-data", "db-server-cert");
    TailDiffers(name, "-postgres-data", "db-server-key");
    TailDiffers(name, "-postgres-data", "db-ca");
    DistinctOfFive(vs, name + "-postgres-data", ca, "db-server-cert", "db-ca", "db-server-key");
  }

  lemma PathsOfFour(ms: seq<Mount>, a: string, b: string, c: string, d: string)
    requires |ms| == 4 && ms[0].path == a && ms[1].path == b && ms[2].path == c && ms[3].path == d
    ensures DistinctPaths(ms) <==> a !in [b, c, d] && b != c && b != d && c != d
  {
  }

  /** No two mounts land on one path, wherever the certificates are put. */
  lemma TlsPathsDistinct(name: string, ca: string, path: string, backend: string)
    requires backend == MYSQL || backend == POSTGRES
    ensures DistinctPaths(Mounts(name, backend) + CertMounts(ca, path, backend))
  {
    if backend == MYSQL {
      MySqlPaths(name, ca, path);
    } else {
      PostgresPaths(name, ca, path);
    }
  }

  lemma MySqlPaths(name: string, ca: string, path: string)
    ensures DistinctPaths(Mounts(name, MYSQL) + CertMounts(ca, path, MYSQL))
  {
    CertPathsApart(path, "/var/lib/mysql", "/ca", "/server_cert", "/server_key");
    PathsOfFour(Mounts(name, MYSQL) + CertMounts(ca, path, MYSQL),
      "/var/lib/mysql", path + "/ca", path + "/server_cert", path + "/server_key");
  }

  lemma PostgresPaths(name: string, ca: string, path: string)
    ensures DistinctPaths(Mounts(name, POSTGRES) + CertMounts(ca, path, POSTGRES))
  {
    CertPathsApart(path, "/var/lib/postgresql/data", "/ssl-ca", "/ssl-certs", "/ssl-keys");
    PathsOfFour(Mounts(name, POSTGRES) + CertMounts(ca, path, POSTGRES),
      "/var/lib/postgresql/data", path + "/ssl-ca", path + "/ssl-certs", path + "/ssl-keys");
  }

  lemma CertPathsApart(path: string, data: string, a: string, b: string, c: string)
    requires |data| > 1 && |a| > 1 && |b| > 1 && |c| > 1
    requires data[|data| - 2..] != a[|a| - 2..] && data[|data| - 2..] != b[|b| - 2..]
        && data[|data| - 2..] != c[|c| - 2..]
    requires a != b && b != c && a != c
    ensures data !in [path + a, path + b, path + c]
    ensures path + a != path + b && path + b != path + c && path + a != path + c
  {
    assert "" + data == data;
    SuffixesDiffer("", path, data, a);
    SuffixesDiffer("", path, data, b);
    SuffixesDiffer("", path, data, c);
    PrefixedDiffer(path, a, b);
    PrefixedDiffer(path, b, c);
    PrefixedDiffer(path, a, c);
  }

  // ----- The fixture's life

  datatype Kind = SecretKind | ClaimKind | ServiceKind | ConfigMapKind | DeploymentKind

  datatype Resource = Resource(kind: Kind, name: string)

  ghost function OneKind(kind: Kind, base: string, num: nat): set<Resource> {
    set i: nat | i < num :: Resource(kind, Name(base, i))
  }

  ghost function FamilyOf(base: string, num: nat, backend: string): set<Resource> {
    OneKind(SecretKind, base, num) + OneKind(ClaimKind, base, num) + OneKind(ServiceKind, base, num)
    + OneKind(ConfigMapKind, base, if backend == MARIADB then num else 0) + OneKind(DeploymentKind, base, num)
  }

  function OfKind(kind: Kind, names: seq<string>): seq<Resource> {
    seq(|names|, i requires 0 <= i < |names| => Resource(kind, names[i]))
  }

  /** In the order they are created. */
  function InOrder(f: Family): seq<Resource> {
    OfKind(SecretKind, f.secrets) + OfKind(ClaimKind, f.claims)
    + OfKind(ServiceKind, seq(|f.services|, i requires 0 <= i < |f.services| => f.services[i].name))
    + OfKind(ConfigMapKind, f.configMaps)
    + OfKind(DeploymentKind, seq(|f.deployments|, i requires 0 <= i < |f.deployments| => f.deployments[i].name))
  }

  function First(backend: string): seq<Resource> {
    var name := Name(DB_BASE, 0);
    [Resource(SecretKind, name), Resource(ClaimKind, name), Resource(ServiceKind, name)]
    + (if backend == MARIADB then [Resource(ConfigMapKind, name)] else [])
    + [Resource(DeploymentKind, name)]
  }

  ghost predicate Lists(rs: seq<Resource>, s: set<Resource>) {
    (forall r :: r in rs <==> r in s) && forall i, j | 0 <= i < j < |rs| :: rs[i] != rs[j]
  }

  ghost function Taken(rs: seq<Resource>): set<Resource> {
    set r | r in rs
  }

  lemma KindLists(kind: Kind, names: seq<string>, base: string)
    requires forall i | 0 <= i < |names| :: names[i] == Name(base, i)
    ensures Lists(OfKind(kind, names), OneKind(kind, base, |names|))
  {
    var rs := OfKind(kind, names);
    forall i, j | 0 <= i < j < |rs| ensures rs[i] != rs[j] {
      NamesDistinct(base, i, j);
    }
    forall i: nat | i < |names| ensures Resource(kind, Name(base, i)) in rs {
      assert rs[i] == Resource(kind, Name(base, i));
    }
  }

  lemma ListsJoin(a: seq<Resource>, s: set<Resource>, b: seq<Resource>, t: set<Resource>)
    requires Lists(a, s) && Lists(b, t) && s !! t
    ensures Lists(a + b, s + t)
  {
    forall i, j | 0 <= i < j < |a + b| ensures (a + b)[i] != (a + b)[j] {
      if i < |a| <= j {
        assert a[i] in s && b[j - |a|] in t;
      }
    }
  }

  lemma InOrderLists(f: Family, base: string, num: nat, backend: string)
    requires IsFamily(f, base, num, backend)
    ensures Lists(InOrder(f), FamilyOf(base, num, backend))
  {
    var services := seq(|f.services|, i requires 0 <= i < |f.services| => f.services[i].name);
    var deployments := seq(|f.deployments|, i requires 0 <= i < |f.deployments| => f.deployments[i].name);
    var maps := |f.configMaps|;
    KindLists(SecretKind, f.secrets, base);
    KindLists(ClaimKind, f.claims, base);
    KindLists(ServiceKind, services, base);
    KindLists(ConfigMapKind, f.configMaps, base);
    KindLists(DeploymentKind, deployments, base);
    var a, b := OfKind(SecretKind, f.secrets), OfKind(ClaimKind, f.claims);
    var c, d := OfKind(ServiceKind, services), OfKind(ConfigMapKind, f.configMaps);
    var sa, sb := OneKind(SecretKind, base, num), OneKind(ClaimKind, base, num);
    var sc, sd := OneKind(ServiceKind, base, num), OneKind(ConfigMapKind, base, maps);
    ListsJoin(a, sa, b, sb);
    ListsJoin(a + b, sa + sb, c, sc);
    ListsJoin(a + b + c, sa + sb + sc, d, sd);
    ListsJoin(a + b + c + d, sa + sb + sc + sd,
      OfKind(DeploymentKind, deployments), OneKind(DeploymentKind, base, num));
  }

  lemma FirstLists(backend: string)
    ensures Lists(First(backend), FamilyOf(DB_BASE, 1, backend))
  {
    var rs := First(backend);
    assert forall k :: Resource(k, Name(DB_BASE, 0)) in OneKind(k, DB_BASE, 1);
    forall r ensures r in rs <==> r in FamilyOf(DB_BASE, 1, backend) {
    }
  }

  /** The names of a family, in order. */
  function NamesOf(num: nat): seq<string> {
    seq(num, i requires 0 <= i < num => Name(DB_BASE, i))
  }

  /** The order in which a family of databases is created. */
  function OrderOf(num: nat, backend: string): seq<Resource> {
    OfKind(SecretKind, NamesOf(num)) + OfKind(ClaimKind, NamesOf(num)) + OfKind(ServiceKind, NamesOf(num))
    + OfKind(ConfigMapKind, NamesOf(if backend == MARIADB then num else 0)) + OfKind(DeploymentKind, NamesOf(num))
  }

  lemma InOrderIs(f: Family, num: nat, backend: string)
    requires IsFamily(f, DB_BASE, num, backend)
    ensures InOrder(f) == OrderOf(num, backend)
  {
    var services := seq(|f.services|, i requires 0 <= i < |f.services| => f.services[i].name);
    var deployments := seq(|f.deployments|, i requires 0 <= i < |f.deployments| => f.deployments[i].name);
    assert f.secrets == NamesOf(num) && f.claims == NamesOf(num) && services == NamesOf(num)
        && deployments == NamesOf(num);
    assert f.configMaps == NamesOf(if backend == MARIADB then num else 0);
  }

  predicate FirstIn(rs: seq<Resource>, n: nat, s: set<Resource>) {
    n < |rs| && rs[n] in s && forall k | 0 <= k < n :: rs[k] !in s
  }

  predicate FirstNotIn(rs: seq<Resource>, n: nat, s: set<Resource>) {
    n < |rs| && rs[n] !in s && forall k | 0 <= k < n :: rs[k] in s
  }

  /** The first that exists already stops the creation; what was created before it is undone, or stays without
      teardown. */
  ghost predicate StoppedAt(rs: seq<Resource>, at: Resource, was: set<Resource>, now: set<Resource>, teardown: bool) {
    exists n | 0 <= n < |rs| ::
      FirstIn(rs, n, was) && rs[n] == at && now == if teardown then was else was + Taken(rs[..n])
  }

  class Cluster {
    var live: set<Resource>

    constructor (live: set<Resource>)
      ensures this.live == live
    {
      this.live := live;
    }

    /** Entering an exit stack one resource after the other; a resource that exists already undoes the ones before. */
    method Enter(rs: seq<Resource>, teardown: bool, ghost s: set<Resource>) returns (conflict: Option<Resource>)
      requires Lists(rs, s)
      modifies this
      ensures conflict.None? <==> s !! old(live)
      ensures conflict.None? ==> live == old(live) + s
      ensures conflict.Some? ==> StoppedAt(rs, conflict.value, old(live), live, teardown)
    {
      var n := 0;
      while n < |rs|
        invariant 0 <= n <= |rs|
        invariant live == old(live) + Taken(rs[..n])
        invariant forall k | 0 <= k < n :: rs[k] !in old(live)
      {
        assert rs[..n + 1] == rs[..n] + [rs[n]];
        assert rs[n] !in rs[..n];
        if rs[n] in live {
          if teardown {
            Leave(rs[..n]);
          }
          assert FirstIn(rs, n, old(live));
          return Some(rs[n]);
        }
        live := live + {rs[n]};
        n := n + 1;
      }
      assert rs[..n] == rs;
      conflict := None;
    }

    /** Leaving in reverse. */
    method Leave(rs: seq<Resource>)
      modifies this
      ensures live == old(live) - Taken(rs)
    {
      var n := |rs|;
      while n > 0
        invariant 0 <= n <= |rs|
        invariant live == old(live) - Taken(rs[n..])
      {
        n := n - 1;
        assert rs[n..] == [rs[n]] + rs[n + 1..];
        live := live - {rs[n]};
      }
      assert rs[0..] == rs;
    }

    /** The look-up of existing resources: the first one that is missing. */
    method FindAll(rs: seq<Resource>) returns (missing: Option<Resource>)
      ensures missing.None? <==> forall r | r in rs :: r in live
      ensures missing.Some? ==> exists n | 0 <= n < |rs| :: FirstNotIn(rs, n, live) && rs[n] == missing.value
    {
      for n := 0 to |rs|
        invariant forall k | 0 <= k < n :: rs[k] in live
      {
        if rs[n] !in live {
          assert FirstNotIn(rs, n, live);
          return Some(rs[n]);
        }
      }
      missing := None;
    }

    /**
     The database fixture with everything the tests do in between left out. Kinds without members are not
     recorded, so waiting for the deployments of an empty family is a key error.
     */
    method DbResources(postUpgrade: bool, teardown: bool, num: nat, backend: string) returns (raised: Option<Error>)
      modifies this
      ensures postUpgrade ==>
        Found(old(live), live, backend, raised)
      ensures !postUpgrade && backend in PORTS ==>
        Created(old(live), live, teardown, num, backend, raised)
      ensures !postUpgrade && backend !in PORTS ==>
        live == old(live) && raised == if backend == DEFAULT then None else Some(KeyError(backend))
    {
      if postUpgrade {
        FirstLists(backend);
        var rs := First(backend);
        var missing := FindAll(rs);
        if missing.Some? {
          return Some(NotFound(missing.value));
        }
        Leave(rs);
        assert Taken(rs) == FamilyOf(DB_BASE, 1, backend);
        return None;
      }
      if backend == DEFAULT {
        return None;
      }
      var f := GetMetadataResources(DB_BASE, num, backend);
      if f.Err? {
        return Some(f.error);
      }
      InOrderLists(f.value, DB_BASE, num, backend);
      InOrderIs(f.value, num, backend);
      var rs := InOrder(f.value);
      var conflict := Enter(rs, teardown, FamilyOf(DB_BASE, num, backend));
      if conflict.Some? {
        return Some(Conflict(conflict.value));
      }
      if teardown {
        Leave(rs);
        assert Taken(rs) == FamilyOf(DB_BASE, num, backend);
      }
      raised := if |f.value.deployments| == 0 then Some(KeyError("Deployment")) else None;
    }

    /**
     A run before the upgrade that leaves its databases, then one after it. Everything is found and the cluster
     ends as it began exactly for a family of one: the second run deletes the first database alone, and looks for
     it even when the operator provides it.
     */
    method UpgradeCycle(num: nat, backend: string) returns (before: Option<Error>, after: Option<Error>)
      requires backend in PORTS || backend == DEFAULT
      requires forall k, i: nat :: Resource(k, Name(DB_BASE, i)) !in live
      modifies this
      ensures before == None <==> num > 0 || backend == DEFAULT
      ensures after == None <==> num > 0 && backend != DEFAULT
      ensures after == None ==> live == old(live) + (FamilyOf(DB_BASE, num, backend) - FamilyOf(DB_BASE, 1, backend))
      ensures (after == None && live == old(live)) <==> num == 1 && backend != DEFAULT
    {
      assert FamilyOf(DB_BASE, num, backend) !! live;
      assert FamilyOf(DB_BASE, 1, backend) !! live;
      assert Resource(SecretKind, Name(DB_BASE, 0)) in FamilyOf(DB_BASE, 1, backend);
      before := DbResources(false, false, num, backend);
      if num > 0 {
        FirstInFamily(num, backend);
      }
      after := DbResources(true, false, num, backend);
      if num > 1 {
        SecondLeft(num, backend);
      }
    }
  }

  ghost predicate Found(was: set<Resource>, now: set<Resource>, backend: string, raised: Option<Error>) {
    var family := FamilyOf(DB_BASE, 1, backend);
    if family <= was then raised == None && now == was - family
    else
      var rs := First(backend);
      && now == was && raised.Some? && raised.value.NotFound?
      && exists n | 0 <= n < |rs| :: FirstNotIn(rs, n, was) && rs[n] == raised.value.missing
  }

  ghost predicate Created(was: set<Resource>, now: set<Resource>, teardown: bool, num: nat, backend: string,
      raised: Option<Error>) {
    var family := FamilyOf(DB_BASE, num, backend);
    && (family !! was ==>
          && raised == (if num == 0 then Some(KeyError("Deployment")) else None)
          && now == if teardown then was else was + family)
    && (!(family !! was) ==>
          raised.Some? && raised.value.Conflict?
          && StoppedAt(OrderOf(num, backend), raised.value.at, was, now, teardown))
  }

  lemma FirstInFamily(num: nat, backend: string)
    requires num > 0
    ensures FamilyOf(DB_BASE, 1, backend) <= FamilyOf(DB_BASE, num, backend)
    ensures FamilyOf(DB_BASE, 1, backend) != {}
  {
    assert Resource(SecretKind, Name(DB_BASE, 0)) in FamilyOf(DB_BASE, 1, backend);
  }

  lemma SecondLeft(num: nat, backend: string)
    requires num > 1
    ensures Resource(SecretKind, Name(DB_BASE, 1)) in FamilyOf(DB_BASE, num, backend) - FamilyOf(DB_BASE, 1, backend)
  {
    NamesDistinct(DB_BASE, 0, 1);
  }
}
