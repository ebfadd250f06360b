/**
 `ServingRuntimeFromTemplate.update_model_dict`: the in-place rewrite of a template's containers. Port
 lists are kept on the heap, because containers may end up sharing the two constant lists of the vLLM
 configuration and because overrides come from the caller; all other fields are values.
 */
module ServingRuntime {
  import opened Wrappers
  import opened Texts

  datatype Port = Port(number: int, name: string, protocol: string)

  datatype EnvVar = EnvVar(name: string, value: Option<string>)

  /** A field of a container; `Opaque(0)` is an empty dictionary. */
  datatype Data = Str(text: string) | Strings(items: seq<string>) | Env(vars: seq<EnvVar>) | Opaque(id: int) {
    predicate Truthy() {
      match this
      case Str(t) => t != ""
      case Strings(ts) => ts != []
      case Env(vs) => vs != []
      case Opaque(n) => n != 0
    }
  }

  datatype View = View(fields: map<string, Data>, ports: Option<seq<Port>>)

  datatype Settings = Settings(
    templateName: string,
    enableHttp: Option<bool>,
    enableGrpc: Option<bool>,
    resources: map<string, Data>,
    runtimeImage: Option<string>,
    deploymentType: Option<string>,
    supportTgisOpenAi: bool)

  const GRPC_PORT := Port(8085, "h2c", "TCP")
  const GRPC_COMMAND := "vllm_tgis_adapter"

  // ----- What one container becomes

  function BoolText(b: bool): string {
    if b then "true" else "false"
  }

  function EnvOf(v: View): seq<EnvVar> {
    if "env" in v.fields && v.fields["env"].Env? then v.fields["env"].vars else []
  }

  function EditVar(e: EnvVar, s: Settings): EnvVar {
    if e.name == "RUNTIME_HTTP_ENABLED" && s.enableHttp.Some? then e.(value := Some(BoolText(s.enableHttp.value)))
    else if e.name == "RUNTIME_GRPC_ENABLED" && s.enableGrpc.Some? then e.(value := Some(BoolText(s.enableGrpc.value)))
    else e
  }

  function EditVars(vars: seq<EnvVar>, s: Settings): (r: seq<EnvVar>)
    ensures |r| == |vars| && forall i | 0 <= i < |vars| :: r[i] == EditVar(vars[i], s)
  {
    seq(|vars|, i requires 0 <= i < |vars| => EditVar(vars[i], s))
  }

  predicate WantsGrpcPort(vars: seq<EnvVar>, s: Settings) {
    s.enableGrpc == Some(true) && exists e :: e in vars && e.name == "RUNTIME_GRPC_ENABLED"
  }

  function EnvStage(v: View, s: Settings): Option<View> {
    var vars := EnvOf(v);
    var fields := if vars == [] then v.fields else v.fields["env" := Env(EditVars(vars, s))];
    if !WantsGrpcPort(vars, s) then Some(View(fields, v.ports))
    else if v.ports.None? || v.ports.value == [] then None
    else Some(View(fields, Some(v.ports.value[0 := GRPC_PORT])))
  }

  function PlainStage(v: View, s: Settings): View {
    var name := NameOf(v);
    var resourced :=
      if name.Some? && name.value in s.resources && s.resources[name.value].Truthy()
      then v.fields["resources" := s.resources[name.value]] else v.fields;
    v.(fields := if s.runtimeImage.Some? then resourced["image" := Str(s.runtimeImage.value)] else resourced)
  }

  predicate SingleEntryPoint(s: Settings) {
    s.supportTgisOpenAi && Contains(s.templateName, "vllm") && s.runtimeImage.Some? && s.deploymentType.Some?
  }

  predicate ForGrpc(s: Settings)
    requires s.deploymentType.Some?
  {
    Contains(Lower(s.deploymentType.value), "grpc")
  }

  predicate ForRaw(s: Settings)
    requires s.deploymentType.Some?
  {
    Contains(Lower(s.deploymentType.value), "raw")
  }

  function WithoutModel(args: seq<string>): seq<string> {
    if args == [] then []
    else (if Contains(args[0], "--model") then [] else [args[0]]) + WithoutModel(args[1..])
  }

  /** The entry point for both TGIS and OpenAI; `grpc` and `raw` are the shared port lists. */
  function EntryStage(v: View, s: Settings, grpc: seq<Port>, raw: seq<Port>): Option<View> {
    if !SingleEntryPoint(s) then Some(v)
    else if !("args" in v.fields && v.fields["args"].Strings?) then None
    else
      var fields := v.fields["args" := Strings(WithoutModel(v.fields["args"].items))];
      if !ForGrpc(s) && !ForRaw(s) then Some(v.(fields := fields))
      else if !("command" in fields && fields["command"].Strings? && fields["command"].items != []) then None
      else
        var command := fields["command"].items;
        Some(View(fields["command" := Strings(command[|command| - 1 := GRPC_COMMAND])],
                  Some(if ForGrpc(s) then grpc else raw)))
  }

  function Edited(v: View, s: Settings, grpc: seq<Port>, raw: seq<Port>): Option<View> {
    var first := EnvStage(v, s);
    if first.None? then None else EntryStage(PlainStage(first.value, s), s, grpc, raw)
  }

  function NameOf(v: View): Option<string> {
    if "name" in v.fields && v.fields["name"].Str? then Some(v.fields["name"].text) else None
  }

  // ----- What the container list becomes

  type Overrides = seq<(string, View)>

  /** Position of the entry for a container name, or the length. */
  function Find<T>(entries: seq<(string, T)>, name: Option<string>): (i: nat)
    ensures i <= |entries| && (i < |entries| ==> name == Some(entries[i].0))
    ensures forall j | 0 <= j < i :: name != Some(entries[j].0)
  {
    if entries == [] || name == Some(entries[0].0) then 0 else 1 + Find(entries[1..], name)
  }

  function Overridden(v: View, config: View): View {
    View(v.fields + config.fields, if config.ports.Some? then config.ports else v.ports)
  }

  function Added(name: string, config: View): View {
    Overridden(View(map["name" := Str(name)], None), config)
  }

  function Drop<T>(entries: seq<T>, i: nat): seq<T>
    requires i < |entries|
  {
    entries[..i] + entries[i + 1..]
  }

  /** One container with its override applied, and the overrides still to place. */
  function MergedOne(v: View, todo: Overrides, s: Settings, grpc: seq<Port>, raw: seq<Port>)
    : Option<(View, Overrides)>
  {
    var edited := Edited(v, s, grpc, raw);
    if edited.None? then None
    else
      var i := Find(todo, NameOf(v));
      if i < |todo| then Some((Overridden(edited.value, todo[i].1), Drop(todo, i))) else Some((edited.value, todo))
  }

  function MergedAll(vs: seq<View>, todo: Overrides, s: Settings, grpc: seq<Port>, raw: seq<Port>)
    : (r: Option<(seq<View>, Overrides)>)
    ensures r.Some? ==> |r.value.0| == |vs|
  {
    if vs == [] then Some(([], todo))
    else
      var before := MergedAll(vs[..|vs| - 1], todo, s, grpc, raw);
      if before.None? then None
      else
        var last := MergedOne(vs[|vs| - 1], before.value.1, s, grpc, raw);
        if last.None? then None else Some((before.value.0 + [last.value.0], last.value.1))
  }

  function AddedAll(todo: Overrides): (r: seq<View>)
    ensures |r| == |todo| && forall i | 0 <= i < |todo| :: r[i] == Added(todo[i].0, todo[i].1)
  {
    if todo == [] then [] else [Added(todo[0].0, todo[0].1)] + AddedAll(todo[1..])
  }

  function Merged(vs: seq<View>, overrides: Overrides, s: Settings, grpc: seq<Port>, raw: seq<Port>)
    : Option<seq<View>>
  {
    var all := MergedAll(vs, overrides, s, grpc, raw);
    if all.None? then None else Some(all.value.0 + AddedAll(all.value.1))
  }

  // ----- The heap

  class PortList {
    var items: seq<Port>

    constructor (items: seq<Port>)
      ensures this.items == items
    {
      this.items := items;
    }
  }

  class VllmConfig {
    const grpcPorts: PortList
    const rawPorts: PortList

    constructor (grpcPorts: PortList, rawPorts: PortList)
      ensures this.grpcPorts == grpcPorts && this.rawPorts == rawPorts
    {
      this.grpcPorts := grpcPorts;
      this.rawPorts := rawPorts;
    }
  }

  class Container {
    var fields: map<string, Data>
    var ports: PortList?

    constructor (fields: map<string, Data>, ports: PortList?)
      ensures this.fields == fields && this.ports == ports
    {
      this.fields := fields;
      this.ports := ports;
    }

    function Look(): View
      reads this, ports
    {
      View(fields, if ports == null then None else Some(ports.items))
    }
  }

  /** One override: fields as values, ports as a list of its own. */
  datatype Config = Config(fields: map<string, Data>, ports: PortList?)

  type Entries = seq<(string, Config)>

  /** The dictionary of overrides, in insertion order. */
  class OverrideMap {
    var entries: Entries

    constructor (entries: Entries)
      ensures this.entries == entries
    {
      this.entries := entries;
    }

    method Pop(k: nat) returns (config: Config)
      requires k < |entries|
      modifies this
      ensures config == old(entries)[k].1 && entries == Drop(old(entries), k)
    {
      config := entries[k].1;
      entries := Drop(entries, k);
    }
  }

  function LookAt(c: Config): View
    reads c.ports
  {
    View(c.fields, if c.ports == null then None else Some(c.ports.items))
  }

  function Lists(entries: Entries): set<PortList> {
    set e | e in entries && e.1.ports != null :: e.1.ports
  }

  function LookAll(entries: Entries): (r: Overrides)
    reads Lists(entries)
    ensures |r| == |entries|
    ensures forall i | 0 <= i < |entries| :: r[i] == (entries[i].0, LookAt(entries[i].1))
  {
    if entries == [] then []
    else
      assert entries[0] in entries && Lists(entries[1..]) <= Lists(entries);
      [(entries[0].0, LookAt(entries[0].1))] + LookAll(entries[1..])
  }

  /** Every list in the entries is one of these. */
  predicate Within(entries: Entries, lists: set<PortList>) {
    forall i | 0 <= i < |entries| && entries[i].1.ports != null :: entries[i].1.ports in lists
  }

  /** The entries read as `values`. */
  ghost predicate Reads(entries: Entries, lists: set<PortList>, values: Overrides)
    requires Within(entries, lists)
    reads lists
  {
    |entries| == |values| && forall i | 0 <= i < |entries| :: values[i] == (entries[i].0, LookAt(entries[i].1))
  }

  // ----- The code

  /** The loop over the environment of one container. */
  method EditEnv(c: Container, s: Settings) returns (ok: bool)
    modifies c, if c.ports == null then {} else {c.ports}
    ensures c.ports == old(c.ports)
    ensures ok <==> EnvStage(old(c.Look()), s).Some?
    ensures ok ==> c.Look() == EnvStage(old(c.Look()), s).value
  {
    var vars := EnvOf(c.Look());
    ghost var before := c.Look();
    var current := vars;
    var i := 0;
    while i < |vars|
      invariant 0 <= i <= |vars| == |current| && c.ports == old(c.ports)
      invariant forall j | 0 <= j < |vars| :: current[j] == if j < i then EditVar(vars[j], s) else vars[j]
      invariant c.fields == if i == 0 then before.fields else before.fields["env" := Env(current)]
      invariant WantsGrpcPort(vars[..i], s) ==> before.ports.Some? && before.ports.value != []
      invariant c.Look().ports
             == if WantsGrpcPort(vars[..i], s) then Some(before.ports.value[0 := GRPC_PORT]) else before.ports
    {
      WantsOneMore(vars, s, i);
      current := current[i := EditVar(vars[i], s)];
      c.fields := c.fields["env" := Env(current)];
      if vars[i].name == "RUNTIME_GRPC_ENABLED" && s.enableGrpc == Some(true) {
        if c.ports == null || c.ports.items == [] {
          return false;
        }
        assert c.ports.items[0 := GRPC_PORT] == before.ports.value[0 := GRPC_PORT];
        c.ports.items := c.ports.items[0 := GRPC_PORT];
      }
      i := i + 1;
    }
    assert vars[..|vars|] == vars && current == EditVars(vars, s);
    return true;
  }

  lemma WantsOneMore(vars: seq<EnvVar>, s: Settings, i: nat)
    requires i < |vars|
    ensures WantsGrpcPort(vars[..i + 1], s)
            <==> WantsGrpcPort(vars[..i], s) || (s.enableGrpc == Some(true) && vars[i].name == "RUNTIME_GRPC_ENABLED")
    ensures WantsGrpcPort(vars[..i + 1], s) ==> WantsGrpcPort(vars, s)
  {
    assert vars[..i + 1] == vars[..i] + [vars[i]];
    assert vars == vars[..i + 1] + vars[i + 1..];
  }

  method WithoutModelArgs(args: seq<string>) returns (r: seq<string>)
    ensures r == WithoutModel(args)
  {
    r := [];
    var i := 0;
    while i < |args|
      invariant 0 <= i <= |args| && r + WithoutModel(args[i..]) == WithoutModel(args)
    {
      if !Contains(args[i], "--model") {
        r := r + [args[i]];
      }
      i := i + 1;
    }
  }

  /** Resources and image. */
  method EditPlain(c: Container, s: Settings)
    modifies c
    ensures c.ports == old(c.ports) && c.Look() == PlainStage(old(c.Look()), s)
  {
    var name := NameOf(c.Look());
    if name.Some? && name.value in s.resources && s.resources[name.value].Truthy() {
      c.fields := c.fields["resources" := s.resources[name.value]];
    }
    if s.runtimeImage.Some? {
      c.fields := c.fields["image" := Str(s.runtimeImage.value)];
    }
  }

  /** The single entry point; the shared port lists themselves are handed out, not copies. */
  method EditEntryPoint(c: Container, s: Settings, vllm: VllmConfig) returns (ok: bool)
    modifies c
    ensures c.ports == old(c.ports) || c.ports == vllm.grpcPorts || c.ports == vllm.rawPorts
    ensures ok <==> EntryStage(old(c.Look()), s, vllm.grpcPorts.items, vllm.rawPorts.items).Some?
    ensures ok ==> c.Look() == EntryStage(old(c.Look()), s, vllm.grpcPorts.items, vllm.rawPorts.items).value
  {
    if SingleEntryPoint(s) {
      if !("args" in c.fields && c.fields["args"].Strings?) {
        return false;
      }
      var args := WithoutModelArgs(c.fields["args"].items);
      c.fields := c.fields["args" := Strings(args)];
      if ForGrpc(s) || ForRaw(s) {
        if !("command" in c.fields && c.fields["command"].Strings? && c.fields["command"].items != []) {
          return false;
        }
        var command := c.fields["command"].items;
        c.fields := c.fields["command" := Strings(command[|command| - 1 := GRPC_COMMAND])];
      }
      if ForGrpc(s) {
        c.ports := vllm.grpcPorts;
      } else if ForRaw(s) {
        c.ports := vllm.rawPorts;
      }
    }
    return true;
  }

  method EditContainer(c: Container, s: Settings, vllm: VllmConfig) returns (ok: bool)
    requires c.ports != vllm.grpcPorts && c.ports != vllm.rawPorts
    modifies c, if c.ports == null then {} else {c.ports}
    ensures c.ports == old(c.ports) || c.ports == vllm.grpcPorts || c.ports == vllm.rawPorts
    ensures ok <==> Edited(old(c.Look()), s, vllm.grpcPorts.items, vllm.rawPorts.items).Some?
    ensures ok ==> c.Look() == Edited(old(c.Look()), s, vllm.grpcPorts.items, vllm.rawPorts.items).value
  {
    ok := EditEnv(c, s);
    if ok {
      EditPlain(c, s);
      ok := EditEntryPoint(c, s, vllm);
    }
  }

  /** `copy.deepcopy` of the caller's overrides: a map of its own, with lists of its own. */
  method DeepCopy(overrides: OverrideMap) returns (copied: OverrideMap, ghost copies: set<PortList>)
    ensures fresh(copied) && fresh(copies) && Within(copied.entries, copies)
    ensures Reads(copied.entries, copies, LookAll(overrides.entries))
  {
    var entries: Entries := [];
    ghost var given := LookAll(overrides.entries);
    copies := {};
    var i := 0;
    while i < |overrides.entries|
      invariant 0 <= i <= |overrides.entries| && |entries| == i && fresh(copies) && Within(entries, copies)
      invariant Reads(entries, copies, given[..i])
    {
      var (name, config) := overrides.entries[i];
      var ports: PortList? := null;
      if config.ports != null {
        ports := new PortList(config.ports.items);
        copies := copies + {ports};
      }
      entries := entries + [(name, Config(config.fields, ports))];
      i := i + 1;
    }
    assert given[..i] == given;
    copied := new OverrideMap(entries);
  }

  /** `container[key] = value` for every entry of an override: the container takes its list over. */
  method Override(c: Container, config: Config)
    modifies c
    ensures c.Look() == Overridden(old(c.Look()), LookAt(config))
    ensures c.ports == if config.ports == null then old(c.ports) else config.ports
  {
    c.fields := c.fields + config.fields;
    if config.ports != null {
      c.ports := config.ports;
    }
  }

  /** Containers and port lists of a template just read from the cluster are its own, and none of `foreign`. */
  ghost predicate OwnLists(cs: seq<Container>, foreign: set<PortList>, from: nat)
    reads cs
  {
    && (forall i, j | 0 <= i < j < |cs| :: cs[i] != cs[j])
    && OwnPorts(PortsOf(cs), foreign, from)
  }

  predicate OwnPorts(ports: seq<PortList?>, foreign: set<PortList>, from: nat) {
    forall i | from <= i < |ports| && ports[i] != null ::
      ports[i] !in foreign && forall j | 0 <= j < |ports| && j != i :: ports[j] != ports[i]
  }

  function PortsOf(cs: seq<Container>): (r: seq<PortList?>)
    reads cs
    ensures |r| == |cs| && forall i | 0 <= i < |r| :: r[i] == cs[i].ports
  {
    seq(|cs|, i requires 0 <= i < |cs| reads cs => cs[i].ports)
  }

  lemma OwnersKeep(before: seq<PortList?>, after: seq<PortList?>, i: nat, foreign: set<PortList>)
    requires i < |before| == |after| && OwnPorts(before, foreign, i)
    requires forall j | 0 <= j < |before| && j != i :: after[j] == before[j]
    requires Sourced(after[i], before[i], foreign)
    ensures OwnPorts(after, foreign, i + 1)
  {
  }

  /** The containers read as `views`. */
  ghost predicate Shows(cs: seq<Container>, views: seq<View>)
    reads cs, OwnedLists(cs)
  {
    |cs| == |views| && forall i | 0 <= i < |cs| :: cs[i].Look() == views[i]
  }

  function OwnedLists(cs: seq<Container>): set<PortList>
    reads cs
  {
    set c | c in cs && c.ports != null :: c.ports
  }

  /** Where a container's port list may come from. */
  predicate Sourced(ports: PortList?, before: PortList?, foreign: set<PortList>) {
    ports != null ==> ports == before || ports in foreign
  }

  /** The edits of one container of several: nothing else changes. */
  method EditAt(cs: seq<Container>, i: nat, s: Settings, vllm: VllmConfig, ghost foreign: set<PortList>)
    returns (ok: bool)
    requires i < |cs| && OwnLists(cs, foreign, i) && vllm.grpcPorts in foreign && vllm.rawPorts in foreign
    modifies cs[i], if cs[i].ports == null then {} else {cs[i].ports}
    ensures ok <==> Edited(old(cs[i].Look()), s, vllm.grpcPorts.items, vllm.rawPorts.items).Some?
    ensures ok ==> cs[i].Look() == Edited(old(cs[i].Look()), s, vllm.grpcPorts.items, vllm.rawPorts.items).value
    ensures Sourced(cs[i].ports, old(cs[i].ports), foreign)
    ensures forall l | l in foreign :: l.items == old(l.items)
    ensures forall j | 0 <= j < |cs| && j != i :: cs[j].ports == old(cs[j].ports) && cs[j].Look() == old(cs[j].Look())
  {
    var c := cs[i];
    ghost var ports := PortsOf(cs);
    assert ports[i] == c.ports;
    assert forall j | 0 <= j < |cs| && j != i :: cs[j] != c;
    assert forall j | 0 <= j < |cs| && j != i && ports[j] != null :: ports[j] != c.ports;
    ok := EditContainer(c, s, vllm);
  }

  /** The loop body for one container; the others neither are it nor use its port list. */
  method MergeContainer(cs: seq<Container>, i: nat, todo: OverrideMap, ghost pending: Overrides, s: Settings,
                        vllm: VllmConfig, ghost copies: set<PortList>)
    returns (ok: bool)
    requires i < |cs| && OwnLists(cs, copies + {vllm.grpcPorts, vllm.rawPorts}, i)
    requires Within(todo.entries, copies) && Reads(todo.entries, copies, pending)
    modifies cs[i], todo, if cs[i].ports == null then {} else {cs[i].ports}
    ensures Within(todo.entries, copies)
    ensures Sourced(cs[i].ports, old(cs[i].ports), copies + {vllm.grpcPorts, vllm.rawPorts})
    ensures var one := MergedOne(old(cs[i].Look()), pending, s, vllm.grpcPorts.items, vllm.rawPorts.items);
            && (ok <==> one.Some?)
            && (ok ==> cs[i].Look() == one.value.0 && Reads(todo.entries, copies, one.value.1))
    ensures forall l | l in copies + {vllm.grpcPorts, vllm.rawPorts} :: l.items == old(l.items)
    ensures forall j | 0 <= j < |cs| && j != i :: cs[j].ports == old(cs[j].ports) && cs[j].Look() == old(cs[j].Look())
  {
    ghost var foreign := copies + {vllm.grpcPorts, vllm.rawPorts};
    var name := NameOf(cs[i].Look());
    ok := EditAt(cs, i, s, vllm, foreign);
    if !ok {
      return;
    }
    assert forall j | 0 <= j < |cs| && j != i :: cs[j] != cs[i];
    PopAndOverride(cs[i], todo, name, pending, copies);
  }

  /** `if container_name in containers_to_add`: the override is taken out of the map and applied. */
  method PopAndOverride(c: Container, todo: OverrideMap, name: Option<string>, ghost pending: Overrides,
                        ghost copies: set<PortList>)
    requires Within(todo.entries, copies) && Reads(todo.entries, copies, pending)
    modifies c, todo
    ensures Within(todo.entries, copies) && Sourced(c.ports, old(c.ports), copies)
    ensures var k := Find(pending, name);
            if k < |pending| then
              c.Look() == Overridden(old(c.Look()), pending[k].1) && Reads(todo.entries, copies, Drop(pending, k))
            else
              c.Look() == old(c.Look()) && Reads(todo.entries, copies, pending)
  {
    var k := Find(todo.entries, name);
    SamePlace(todo.entries, pending, name);
    if k < |todo.entries| {
      ReadsDrop(todo.entries, copies, pending, k);
      var config := todo.Pop(k);
      Override(c, config);
    }
  }

  lemma ReadsDrop(entries: Entries, lists: set<PortList>, values: Overrides, k: nat)
    requires Within(entries, lists) && Reads(entries, lists, values) && k < |entries|
    ensures Within(Drop(entries, k), lists) && Reads(Drop(entries, k), lists, Drop(values, k))
  {
  }

  lemma SamePlace(entries: Entries, values: Overrides, name: Option<string>)
    requires |entries| == |values| && forall i | 0 <= i < |entries| :: entries[i].0 == values[i].0
    ensures Find(entries, name) == Find(values, name)
  {
  }

  /** The containers before `i` read as `done`, the others as `views`. */
  ghost predicate Halfway(cs: seq<Container>, i: nat, done: seq<View>, views: seq<View>)
    reads cs, OwnedLists(cs)
  {
    && |done| == i <= |cs| == |views|
    && (forall j | 0 <= j < i :: cs[j].Look() == done[j])
    && forall j | i <= j < |cs| :: cs[j].Look() == views[j]
  }

  /** The state of the loop: what is merged so far, what is left, and where the lists come from. */
  ghost predicate Merging(cs: seq<Container>, i: nat, todo: OverrideMap, done: seq<View>, rest: Overrides,
                          views: seq<View>, copies: set<PortList>, foreign: set<PortList>, before: seq<PortList?>)
    reads cs, OwnedLists(cs), todo, copies
  {
    && i <= |cs| && Halfway(cs, i, done, views)
    && OwnLists(cs, foreign, i) && Traced(PortsOf(cs), before, i, foreign)
    && Within(todo.entries, copies) && Reads(todo.entries, copies, rest)
  }

  /** One round of the loop. */
  method MergeNext(cs: seq<Container>, i: nat, todo: OverrideMap, ghost done: seq<View>, ghost rest: Overrides,
                   ghost views: seq<View>, s: Settings, vllm: VllmConfig, ghost copies: set<PortList>,
                   ghost before: seq<PortList?>)
    returns (ok: bool)
    requires i < |cs|
    requires Merging(cs, i, todo, done, rest, views, copies, copies + {vllm.grpcPorts, vllm.rawPorts}, before)
    modifies cs[i], todo, if cs[i].ports == null then {} else {cs[i].ports}
    ensures var one := MergedOne(views[i], rest, s, old(vllm.grpcPorts.items), old(vllm.rawPorts.items));
            && (ok <==> one.Some?)
            && (ok ==> Merging(cs, i + 1, todo, done + [one.value.0], one.value.1, views, copies,
                               copies + {vllm.grpcPorts, vllm.rawPorts}, before))
    ensures Traced(PortsOf(cs), before, |cs|, copies + {vllm.grpcPorts, vllm.rawPorts})
    ensures Within(todo.entries, copies)
    ensures vllm.grpcPorts.items == old(vllm.grpcPorts.items) && vllm.rawPorts.items == old(vllm.rawPorts.items)
  {
    ghost var ports, foreign := PortsOf(cs), copies + {vllm.grpcPorts, vllm.rawPorts};
    ok := MergeContainer(cs, i, todo, rest, s, vllm, copies);
    OwnersKeep(ports, PortsOf(cs), i, foreign);
    TracedFurther(ports, PortsOf(cs), before, i, foreign);
  }

  /** The lists before `i` are accounted for, the others unchanged. */
  predicate Traced(ports: seq<PortList?>, before: seq<PortList?>, i: nat, foreign: set<PortList>) {
    && i <= |ports| == |before|
    && (forall j | 0 <= j < i :: Sourced(ports[j], before[j], foreign))
    && forall j | i <= j < |ports| :: ports[j] == before[j]
  }

  lemma TracedFurther(ports: seq<PortList?>, after: seq<PortList?>, before: seq<PortList?>, i: nat,
                      foreign: set<PortList>)
    requires Traced(ports, before, i, foreign) && i < |after| == |ports| && Sourced(after[i], ports[i], foreign)
    requires forall j | 0 <= j < |ports| && j != i :: after[j] == ports[j]
    ensures Traced(after, before, i + 1, foreign) && Traced(after, before, |after|, foreign)
  {
  }

  /** The loop over the template's containers; overrides are popped as containers take them. */
  method MergeTemplate(cs: seq<Container>, ghost views: seq<View>, todo: OverrideMap, ghost given: Overrides,
                       s: Settings, vllm: VllmConfig, ghost copies: set<PortList>)
    returns (ok: bool, ghost rest: Overrides)
    requires OwnLists(cs, copies + {vllm.grpcPorts, vllm.rawPorts}, 0) && Shows(cs, views)
    requires Within(todo.entries, copies) && Reads(todo.entries, copies, given)
    modifies cs, OwnedLists(cs), todo
    ensures vllm.grpcPorts.items == old(vllm.grpcPorts.items) && vllm.rawPorts.items == old(vllm.rawPorts.items)
    ensures var all := MergedAll(views, given, s, vllm.grpcPorts.items, vllm.rawPorts.items);
            && (ok <==> all.Some?)
            && (ok ==> Shows(cs, all.value.0) && rest == all.value.1)
    ensures Within(todo.entries, copies) && (ok ==> Reads(todo.entries, copies, rest))
    ensures Traced(PortsOf(cs), old(PortsOf(cs)), |cs|, copies + {vllm.grpcPorts, vllm.rawPorts})
  {
    ghost var done: seq<View> := [];
    rest := given;
    ghost var owned, foreign, before := OwnedLists(cs), copies + {vllm.grpcPorts, vllm.rawPorts}, PortsOf(cs);
    ghost var grpc, raw := vllm.grpcPorts.items, vllm.rawPorts.items;
    var i := 0;
    while i < |cs|
      invariant 0 <= i <= |cs| && Merging(cs, i, todo, done, rest, views, copies, foreign, before)
      invariant vllm.grpcPorts.items == grpc && vllm.rawPorts.items == raw
      invariant MergedAll(views[..i], given, s, grpc, raw) == Some((done, rest))
    {
      MergedFurther(views, given, s, grpc, raw, i, done, rest);
      assert cs[i] in cs && PortsOf(cs)[i] == before[i] && (cs[i].ports != null ==> cs[i].ports in owned);
      ok := MergeNext(cs, i, todo, done, rest, views, s, vllm, copies, before);
      if !ok {
        return;
      }
      var one := MergedOne(views[i], rest, s, grpc, raw).value;
      done, rest := done + [one.0], one.1;
      i := i + 1;
    }
    assert views[..|cs|] == views;
    ok := true;
  }

  /** One container more, or the end of it. */
  lemma MergedFurther(views: seq<View>, given: Overrides, s: Settings, grpc: seq<Port>, raw: seq<Port>, i: nat,
                      done: seq<View>, rest: Overrides)
    requires i < |views| && MergedAll(views[..i], given, s, grpc, raw) == Some((done, rest))
    ensures var one := MergedOne(views[i], rest, s, grpc, raw);
            if one.None? then MergedAll(views, given, s, grpc, raw).None?
            else MergedAll(views[..i + 1], given, s, grpc, raw) == Some((done + [one.value.0], one.value.1))
  {
    MergedStep(views, given, s, grpc, raw, i);
    if MergedOne(views[i], rest, s, grpc, raw).None? {
      FailsOnPrefix(views, given, s, grpc, raw, i + 1);
    }
  }

  lemma MergedStep(vs: seq<View>, todo: Overrides, s: Settings, grpc: seq<Port>, raw: seq<Port>, n: nat)
    requires n < |vs| && MergedAll(vs[..n], todo, s, grpc, raw).Some?
    ensures var before := MergedAll(vs[..n], todo, s, grpc, raw).value;
            var one := MergedOne(vs[n], before.1, s, grpc, raw);
            MergedAll(vs[..n + 1], todo, s, grpc, raw)
              == if one.None? then None else Some((before.0 + [one.value.0], one.value.1))
  {
    assert vs[..n + 1][..n] == vs[..n];
  }

  lemma {:induction false} FailsOnPrefix(vs: seq<View>, todo: Overrides, s: Settings, grpc: seq<Port>, raw: seq<Port>,
      n: nat)
    requires n <= |vs| && MergedAll(vs[..n], todo, s, grpc, raw).None?
    ensures MergedAll(vs, todo, s, grpc, raw).None?
    decreases |vs| - n
  {
    if n < |vs| {
      assert vs[..n + 1][..n] == vs[..n];
      FailsOnPrefix(vs, todo, s, grpc, raw, n + 1);
    } else {
      assert vs[..n] == vs;
    }
  }

  /** No container uses a list of the caller's, unless the caller handed in a shared one. */
  ghost predicate NotTheirs(cs: seq<Container>, theirs: set<PortList>, vllm: VllmConfig)
    reads cs
  {
    forall i | 0 <= i < |cs| && cs[i].ports in theirs :: cs[i].ports == vllm.grpcPorts || cs[i].ports == vllm.rawPorts
  }

  /** The caller's lists are not the template's, which was just read from the cluster. */
  method UpdateContainers(cs: seq<Container>, ghost views: seq<View>, overrides: OverrideMap, s: Settings,
                          vllm: VllmConfig)
    returns (result: Option<seq<Container>>)
    requires OwnLists(cs, {vllm.grpcPorts, vllm.rawPorts}, 0) && Shows(cs, views)
    requires Lists(overrides.entries) !! OwnedLists(cs)
    modifies cs, OwnedLists(cs)
    ensures overrides.entries == old(overrides.entries)
    ensures LookAll(overrides.entries) == old(LookAll(overrides.entries))
    ensures vllm.grpcPorts.items == old(vllm.grpcPorts.items) && vllm.rawPorts.items == old(vllm.rawPorts.items)
    ensures var merged := Merged(views, old(LookAll(overrides.entries)), s, vllm.grpcPorts.items, vllm.rawPorts.items);
            && (result.Some? <==> merged.Some?)
            && (result.Some? ==> Shows(result.value, merged.value) && cs <= result.value)
    ensures result.Some? ==> NotTheirs(result.value, Lists(overrides.entries), vllm)
  {
    ghost var given, theirs := LookAll(overrides.entries), Lists(overrides.entries);
    ghost var before := PortsOf(cs);
    var todo, copies := DeepCopy(overrides);
    FreshAreForeign(before, copies, vllm);
    result := MergeAndAdd(cs, views, todo, given, s, vllm, copies);
    SameLooks(overrides.entries, given);
    if result.Some? {
      TheirsStayOut(result.value, before, theirs, copies, vllm);
    }
  }

  /** Both loops, over the private copy. */
  method MergeAndAdd(cs: seq<Container>, ghost views: seq<View>, todo: OverrideMap, ghost given: Overrides, s: Settings,
                     vllm: VllmConfig, ghost copies: set<PortList>)
    returns (result: Option<seq<Container>>)
    requires OwnLists(cs, copies + {vllm.grpcPorts, vllm.rawPorts}, 0) && Shows(cs, views)
    requires Within(todo.entries, copies) && Reads(todo.entries, copies, given)
    modifies cs, OwnedLists(cs), todo
    ensures vllm.grpcPorts.items == old(vllm.grpcPorts.items) && vllm.rawPorts.items == old(vllm.rawPorts.items)
    ensures var merged := Merged(views, given, s, vllm.grpcPorts.items, vllm.rawPorts.items);
            && (result.Some? <==> merged.Some?)
            && (result.Some? ==> Shows(result.value, merged.value) && cs <= result.value)
    ensures result.Some? ==> AllSourced(result.value, old(PortsOf(cs)), copies + {vllm.grpcPorts, vllm.rawPorts})
  {
    var ok, rest := MergeTemplate(cs, views, todo, given, s, vllm, copies);
    if !ok {
      return None;
    }
    var more := AddContainers(todo, rest, copies);
    return Some(cs + more);
  }

  /** Every list is one its container had before, or one of `foreign`. */
  ghost predicate AllSourced(cs: seq<Container>, before: seq<PortList?>, foreign: set<PortList>)
    reads cs
  {
    && |before| <= |cs|
    && forall i | 0 <= i < |cs| :: Sourced(cs[i].ports, if i < |before| then before[i] else null, foreign)
  }

  lemma SameLooks(entries: Entries, given: Overrides)
    requires |given| == |entries| && forall i | 0 <= i < |entries| :: given[i] == (entries[i].0, LookAt(entries[i].1))
    ensures LookAll(entries) == given
  {
  }

  lemma TheirsStayOut(cs: seq<Container>, before: seq<PortList?>, theirs: set<PortList>, copies: set<PortList>,
                      vllm: VllmConfig)
    requires AllSourced(cs, before, copies + {vllm.grpcPorts, vllm.rawPorts}) && copies !! theirs
    requires forall i | 0 <= i < |before| && before[i] != null :: before[i] !in theirs
    ensures NotTheirs(cs, theirs, vllm)
  {
  }

  lemma FreshAreForeign(ports: seq<PortList?>, copies: set<PortList>, vllm: VllmConfig)
    requires OwnPorts(ports, {vllm.grpcPorts, vllm.rawPorts}, 0)
    requires forall i | 0 <= i < |ports| && ports[i] != null :: ports[i] !in copies
    ensures OwnPorts(ports, copies + {vllm.grpcPorts, vllm.rawPorts}, 0)
  {
  }

  /** The loop over the overrides no container has taken. */
  method AddContainers(todo: OverrideMap, ghost rest: Overrides, ghost copies: set<PortList>)
    returns (more: seq<Container>)
    requires Within(todo.entries, copies) && Reads(todo.entries, copies, rest)
    ensures Shows(more, AddedAll(rest))
    ensures fresh(more)
    ensures forall i | 0 <= i < |more| :: more[i].ports != null ==> more[i].ports in copies
  {
    more := [];
    ghost var added := AddedAll(rest);
    var i := 0;
    while i < |todo.entries|
      invariant 0 <= i <= |todo.entries| && |more| == i
      invariant fresh(more)
      invariant forall j | 0 <= j < i :: more[j].ports != null ==> more[j].ports in copies
      invariant forall j | 0 <= j < i :: more[j].Look() == added[j]
    {
      var (name, config) := todo.entries[i];
      var c := NewContainer(name, config);
      more := more + [c];
      i := i + 1;
    }
  }

  /** `{"name": container_name}` updated with the override. */
  method NewContainer(name: string, config: Config) returns (c: Container)
    ensures fresh(c) && c.ports == config.ports && c.Look() == Added(name, LookAt(config))
  {
    c := new Container(map["name" := Str(name)], null);
    assert c.Look() == View(map["name" := Str(name)], None);
    Override(c, config);
  }
}
