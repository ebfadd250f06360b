/** What the edits of one container guarantee, apart from how they are carried out. */
module RuntimeEdits {
  import opened Wrappers
  import opened Texts
  import opened Selection
  import opened ServingRuntime

  const EDITED := ["env", "resources", "image", "args", "command"]

  predicate SameField(a: View, b: View, k: string) {
    (k in a.fields <==> k in b.fields) && (k in a.fields ==> a.fields[k] == b.fields[k])
  }

  /** The switch an environment variable carries after the edits. */
  predicate SwitchSet(e: EnvVar, s: Settings) {
    && (e.name == "RUNTIME_HTTP_ENABLED" && s.enableHttp.Some? ==> e.value == Some(BoolText(s.enableHttp.value)))
    && (e.name == "RUNTIME_GRPC_ENABLED" && s.enableGrpc.Some? ==> e.value == Some(BoolText(s.enableGrpc.value)))
  }

  lemma VarIdempotent(e: EnvVar, s: Settings)
    ensures EditVar(EditVar(e, s), s) == EditVar(e, s)
    ensures EditVar(e, s).name == e.name && SwitchSet(EditVar(e, s), s)
    ensures SwitchSet(e, s) ==> EditVar(e, s) == e
  {
  }

  lemma VarsIdempotent(vars: seq<EnvVar>, s: Settings)
    ensures EditVars(EditVars(vars, s), s) == EditVars(vars, s)
    ensures WantsGrpcPort(EditVars(vars, s), s) <==> WantsGrpcPort(vars, s)
  {
    var once := EditVars(vars, s);
    forall i | 0 <= i < |vars| ensures EditVar(once[i], s) == once[i] && once[i].name == vars[i].name {
      VarIdempotent(vars[i], s);
    }
    if WantsGrpcPort(vars, s) {
      var e :| e in vars && e.name == "RUNTIME_GRPC_ENABLED";
      var i :| 0 <= i < |vars| && vars[i] == e;
      assert once[i] in once;
    }
  }

  lemma {:induction false} WithoutModelIdempotent(args: seq<string>)
    ensures WithoutModel(WithoutModel(args)) == WithoutModel(args)
    ensures forall a | a in WithoutModel(args) :: !Contains(a, "--model")
  {
    if args != [] {
      WithoutModelIdempotent(args[1..]);
      var rest := WithoutModel(args[1..]);
      assert ([args[0]] + rest)[1..] == rest;
      assert [] + rest == rest;
    }
  }

  /** The arguments kept are those that do not name a model, in their order. */
  lemma {:induction false} WithoutModelSelects(args: seq<string>)
    ensures WithoutModel(args) == Select(args, a => !Contains(a, "--model"))
  {
    if args != [] {
      var keep := a => !Contains(a, "--model");
      WithoutModelSelects(args[1..]);
      SelectConcat([args[0]], args[1..], keep);
      SelectSame(args[1..], keep, a => !Contains(a, "--model"));
      assert args == [args[0]] + args[1..];
      assert Select([args[0]], keep) == if keep(args[0]) then [args[0]] else [] by {
        assert [args[0]][..0] == [];
      }
      assert Select(args, keep) == WithoutModel(args);
      SelectSame(args, keep, a => !Contains(a, "--model"));
    }
  }

  /** The ports after one more environment stage. */
  function PortsAgain(v: View, ports: Option<seq<Port>>, s: Settings): Option<seq<Port>>
    requires WantsGrpcPort(EnvOf(v), s) ==> ports.Some? && ports.value != []
  {
    if WantsGrpcPort(EnvOf(v), s) then Some(ports.value[0 := GRPC_PORT]) else ports
  }

  lemma EnvAgain(v: View, w: View, s: Settings)
    requires EnvStage(v, s).Some? && SameField(EnvStage(v, s).value, w, "env")
    requires WantsGrpcPort(EnvOf(v), s) ==> w.ports.Some? && w.ports.value != []
    ensures EnvStage(w, s) == Some(View(w.fields, PortsAgain(v, w.ports, s)))
  {
    VarsIdempotent(EnvOf(v), s);
    assert EnvOf(w) == EnvOf(EnvStage(v, s).value) == EditVars(EnvOf(v), s);
    if EnvOf(w) != [] {
      assert w.fields["env" := Env(EnvOf(w))] == w.fields;
    }
  }

  lemma PortsTwice(v: View, s: Settings)
    requires EnvStage(v, s).Some?
    ensures var ports := EnvStage(v, s).value.ports;
            && (WantsGrpcPort(EnvOf(v), s) ==> ports.Some? && ports.value != [])
            && PortsAgain(v, ports, s) == ports
  {
    if WantsGrpcPort(EnvOf(v), s) {
      var ports := v.ports.value;
      assert ports[0 := GRPC_PORT][0 := GRPC_PORT] == ports[0 := GRPC_PORT];
    }
  }

  lemma PlainAgain(v: View, w: View, s: Settings)
    requires forall k | k in ["name", "resources", "image"] :: SameField(PlainStage(v, s), w, k)
    ensures PlainStage(w, s) == w
  {
    assert forall k | k in ["name", "resources", "image"] :: k == "name" || k == "resources" || k == "image";
    assert SameField(PlainStage(v, s), w, "name") && SameField(PlainStage(v, s), w, "resources")
           && SameField(PlainStage(v, s), w, "image");
    assert NameOf(w) == NameOf(v);
  }

  /** Whether the entry stage replaces the ports. */
  predicate NewPorts(s: Settings) {
    SingleEntryPoint(s) && (ForGrpc(s) || ForRaw(s))
  }

  lemma EntryAgain(v: View, w: View, s: Settings, grpc: seq<Port>, raw: seq<Port>)
    requires EntryStage(v, s, grpc, raw).Some?
    requires w.fields == EntryStage(v, s, grpc, raw).value.fields
    ensures EntryStage(w, s, grpc, raw)
            == Some(View(w.fields, if NewPorts(s) then EntryStage(v, s, grpc, raw).value.ports else w.ports))
  {
    if SingleEntryPoint(s) {
      WithoutModelIdempotent(v.fields["args"].items);
      assert w.fields["args" := Strings(WithoutModel(w.fields["args"].items))] == w.fields;
      if NewPorts(s) {
        var command := w.fields["command"].items;
        assert command[|command| - 1 := GRPC_COMMAND] == command;
        assert w.fields["command" := Strings(command)] == w.fields;
      }
    }
  }

  /** Editing an edited container changes nothing more, although it would pass through the shared port lists. */
  lemma EditsIdempotent(v: View, s: Settings, grpc: seq<Port>, raw: seq<Port>)
    requires grpc != [] && raw != [] && Edited(v, s, grpc, raw).Some?
    ensures Edited(Edited(v, s, grpc, raw).value, s, grpc, raw) == Edited(v, s, grpc, raw)
  {
    var a := EnvStage(v, s).value;
    var b := PlainStage(a, s);
    var r := EntryStage(b, s, grpc, raw).value;
    EntryTouches(b, s, grpc, raw);
    PortsTwice(v, s);
    EnvAgain(v, r, s);
    var w := View(r.fields, PortsAgain(v, r.ports, s));
    PlainAgain(a, w, s);
    EntryAgain(b, w, s, grpc, raw);
  }

  lemma EntryTouches(v: View, s: Settings, grpc: seq<Port>, raw: seq<Port>)
    requires EntryStage(v, s, grpc, raw).Some?
    ensures forall k | k != "args" && k != "command" :: SameField(v, EntryStage(v, s, grpc, raw).value, k)
    ensures EntryStage(v, s, grpc, raw).value.ports
            == if !NewPorts(s) then v.ports else Some(if ForGrpc(s) then grpc else raw)
  {
  }

  /** The two switches carry the settings made; every other variable is as it was. */
  predicate VarDelivered(before: EnvVar, after: EnvVar, s: Settings) {
    && after.name == before.name
    && (before.name == "RUNTIME_HTTP_ENABLED" && s.enableHttp.Some? ==>
          after.value == Some(if s.enableHttp.value then "true" else "false"))
    && (before.name == "RUNTIME_GRPC_ENABLED" && s.enableGrpc.Some? ==>
          after.value == Some(if s.enableGrpc.value then "true" else "false"))
    && (before.name != "RUNTIME_HTTP_ENABLED" && before.name != "RUNTIME_GRPC_ENABLED" ==> after == before)
    && (before.name == "RUNTIME_HTTP_ENABLED" && s.enableHttp.None? ==> after == before)
    && (before.name == "RUNTIME_GRPC_ENABLED" && s.enableGrpc.None? ==> after == before)
  }

  predicate VarsDelivered(before: seq<EnvVar>, after: seq<EnvVar>, s: Settings) {
    |after| == |before| && forall i | 0 <= i < |before| :: VarDelivered(before[i], after[i], s)
  }

  predicate Holds(v: View, k: string, value: Data) {
    k in v.fields && v.fields[k] == value
  }

  predicate HoldsTexts(v: View, k: string) {
    k in v.fields && v.fields[k].Strings?
  }

  /** The same words up to the last, which is the given one. */
  predicate LastReplaced(before: seq<string>, after: seq<string>, last: string) {
    && |after| == |before| > 0 && after[|after| - 1] == last
    && forall i | 0 <= i < |before| - 1 :: after[i] == before[i]
  }

  predicate Switched(vars: seq<EnvVar>, s: Settings) {
    s.enableGrpc == Some(true) && exists i :: 0 <= i < |vars| && vars[i].name == "RUNTIME_GRPC_ENABLED"
  }

  /** What the edits do to the arguments: with a `single` entry point they are those that name no model, in their
      order. */
  ghost predicate ArgsDelivered(v: View, r: View, single: bool) {
    if single then
      && HoldsTexts(v, "args") && HoldsTexts(r, "args")
      && r.fields["args"].items == Select(v.fields["args"].items, a => !Contains(a, "--model"))
    else SameField(v, r, "args")
  }

  /** What they do to the command: when it is `replaced`, only its last word is another. */
  predicate CommandDelivered(v: View, r: View, replaced: bool) {
    if replaced then
      && HoldsTexts(v, "command") && HoldsTexts(r, "command")
      && LastReplaced(v.fields["command"].items, r.fields["command"].items, "vllm_tgis_adapter")
    else SameField(v, r, "command")
  }

  predicate FirstPortReplaced(before: Option<seq<Port>>, after: Option<seq<Port>>) {
    && before.Some? && after.Some? && |after.value| == |before.value| > 0
    && after.value[0] == Port(8085, "h2c", "TCP") && after.value[1..] == before.value[1..]
  }

  /**
   After the edits: the two switches, the image and the resources are as requested; with a single entry point the
   arguments are those that name no model, in their order, only the last word of the command is another, and the ports
   are those of the protocol. Nothing else has changed.
   */
  lemma EditsDeliver(v: View, s: Settings, grpc: seq<Port>, raw: seq<Port>)
    requires Edited(v, s, grpc, raw).Some?
    ensures var r := Edited(v, s, grpc, raw).value;
            var single := s.supportTgisOpenAi && Contains(s.templateName, "vllm") && s.runtimeImage.Some?
                          && s.deploymentType.Some?;
            var isGrpc := single && Contains(Lower(s.deploymentType.value), "grpc");
            var isRaw := single && Contains(Lower(s.deploymentType.value), "raw");
            && (forall k | k !in EDITED :: SameField(v, r, k))
            && VarsDelivered(EnvOf(v), EnvOf(r), s) && (EnvOf(v) == [] ==> SameField(v, r, "env"))
            && (if s.runtimeImage.Some? then Holds(r, "image", Str(s.runtimeImage.value)) else SameField(v, r, "image"))
            && (if NameOf(v).Some? && NameOf(v).value in s.resources && s.resources[NameOf(v).value].Truthy()
                then Holds(r, "resources", s.resources[NameOf(v).value]) else SameField(v, r, "resources"))
            && ArgsDelivered(v, r, single) && CommandDelivered(v, r, isGrpc || isRaw)
            && (if isGrpc then r.ports == Some(grpc) else if isRaw then r.ports == Some(raw)
                else if Switched(EnvOf(v), s) then FirstPortReplaced(v.ports, r.ports) else r.ports == v.ports)
  {
    var a := EnvStage(v, s).value;
    var b := PlainStage(a, s);
    EnvDelivers(v, s);
    PlainDelivers(a, s);
    EntryDelivers(b, s, grpc, raw);
    var r := Edited(v, s, grpc, raw).value;
    OtherFieldsStay(v, a, b, r);
    assert NameOf(a) == NameOf(v) && EnvOf(r) == EnvOf(b) == EnvOf(a);
  }

  /** Through the three stages. */
  lemma OtherFieldsStay(v: View, a: View, b: View, r: View)
    requires forall k | k != "env" :: SameField(v, a, k)
    requires forall k | k != "image" && k != "resources" :: SameField(a, b, k)
    requires forall k | k != "args" && k != "command" :: SameField(b, r, k)
    ensures forall k | k !in EDITED :: SameField(v, r, k)
    ensures SameField(v, a, "name") && SameField(a, b, "env") && SameField(b, r, "env") && SameField(a, r, "env")
    ensures SameField(v, a, "args") && SameField(a, b, "args") && SameField(v, b, "args")
    ensures SameField(v, a, "command") && SameField(a, b, "command") && SameField(v, b, "command")
    ensures SameField(v, a, "image") && SameField(b, r, "image")
    ensures SameField(v, a, "resources") && SameField(b, r, "resources")
  {
    forall k | k !in EDITED ensures SameField(v, r, k) {
      Untouched(k);
      assert SameField(v, a, k) && SameField(a, b, k) && SameField(b, r, k);
    }
  }

  lemma EnvDelivers(v: View, s: Settings)
    requires EnvStage(v, s).Some?
    ensures var r := EnvStage(v, s).value;
            && VarsDelivered(EnvOf(v), EnvOf(r), s) && (EnvOf(v) == [] ==> SameField(v, r, "env"))
            && (forall k | k != "env" :: SameField(v, r, k))
            && (if Switched(EnvOf(v), s) then FirstPortReplaced(v.ports, r.ports) else r.ports == v.ports)
  {
    SwitchedExactly(EnvOf(v), s);
  }

  lemma SwitchedExactly(vars: seq<EnvVar>, s: Settings)
    ensures WantsGrpcPort(vars, s) <==> Switched(vars, s)
  {
    if Switched(vars, s) {
      var i :| 0 <= i < |vars| && vars[i].name == "RUNTIME_GRPC_ENABLED";
      assert vars[i] in vars;
    }
  }

  lemma PlainDelivers(v: View, s: Settings)
    ensures var r := PlainStage(v, s);
            && (forall k | k != "image" && k != "resources" :: SameField(v, r, k)) && r.ports == v.ports
            && (if s.runtimeImage.Some? then Holds(r, "image", Str(s.runtimeImage.value)) else SameField(v, r, "image"))
            && (if NameOf(v).Some? && NameOf(v).value in s.resources && s.resources[NameOf(v).value].Truthy()
                then Holds(r, "resources", s.resources[NameOf(v).value]) else SameField(v, r, "resources"))
  {
  }

  lemma EntryDelivers(v: View, s: Settings, grpc: seq<Port>, raw: seq<Port>)
    requires EntryStage(v, s, grpc, raw).Some?
    ensures var r := EntryStage(v, s, grpc, raw).value;
            var single := s.supportTgisOpenAi && Contains(s.templateName, "vllm") && s.runtimeImage.Some?
                          && s.deploymentType.Some?;
            var isGrpc := single && Contains(Lower(s.deploymentType.value), "grpc");
            var isRaw := single && Contains(Lower(s.deploymentType.value), "raw");
            && (forall k | k != "args" && k != "command" :: SameField(v, r, k))
            && ArgsDelivered(v, r, single) && CommandDelivered(v, r, isGrpc || isRaw)
            && r.ports == if isGrpc then Some(grpc) else if isRaw then Some(raw) else v.ports
  {
    if SingleEntryPoint(s) {
      WithoutModelSelects(v.fields["args"].items);
    }
  }

  /** The edits fail exactly when a port or a word is to be replaced where there is none, or arguments are to be
      filtered that are no list of texts. */
  lemma EditsSucceedExactly(v: View, s: Settings, grpc: seq<Port>, raw: seq<Port>)
    ensures var single := s.supportTgisOpenAi && Contains(s.templateName, "vllm") && s.runtimeImage.Some?
                          && s.deploymentType.Some?;
            var typed := single && (Contains(Lower(s.deploymentType.value), "grpc")
                                    || Contains(Lower(s.deploymentType.value), "raw"));
            Edited(v, s, grpc, raw).Some? <==>
              && (Switched(EnvOf(v), s) ==> v.ports.Some? && v.ports.value != [])
              && (single ==> HoldsTexts(v, "args"))
              && (typed ==> HoldsTexts(v, "command") && v.fields["command"].items != [])
  {
    SwitchedExactly(EnvOf(v), s);
    if EnvStage(v, s).Some? {
      var a := EnvStage(v, s).value;
      EnvDelivers(v, s);
      PlainDelivers(a, s);
      assert SameField(v, a, "args") && SameField(v, a, "command");
      assert SameField(a, PlainStage(a, s), "args") && SameField(a, PlainStage(a, s), "command");
    }
  }

  lemma Untouched(k: string)
    requires k !in EDITED
    ensures k != "env" && k != "resources" && k != "image" && k != "args" && k != "command"
  {
    assert EDITED[0] in EDITED && EDITED[1] in EDITED && EDITED[2] in EDITED && EDITED[3] in EDITED
        && EDITED[4] in EDITED;
  }
}
