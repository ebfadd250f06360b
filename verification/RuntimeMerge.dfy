/** What the merge of container overrides guarantees, on the values the code was proved to compute. */
module RuntimeMerge {
  import opened Wrappers
  import opened ServingRuntime

  /** Every container of a template is named, no name twice; a dictionary has each key once. */
  predicate Distinct(vs: seq<View>, overrides: Overrides) {
    && (forall i | 0 <= i < |vs| :: NameOf(vs[i]).Some?)
    && (forall i, j | 0 <= i < j < |vs| :: NameOf(vs[i]) != NameOf(vs[j]))
    && DistinctKeys(overrides)
  }

  predicate DistinctKeys(overrides: Overrides) {
    forall i, j | 0 <= i < j < |overrides| :: overrides[i].0 != overrides[j].0
  }

  /** One container on its own: the edits, then the whole override for its name. */
  function Placed(v: View, overrides: Overrides, s: Settings, grpc: seq<Port>, raw: seq<Port>): Option<View> {
    var edited := Edited(v, s, grpc, raw);
    var k := Find(overrides, NameOf(v));
    if edited.None? then None
    else if k < |overrides| then Some(Overridden(edited.value, overrides[k].1)) else edited
  }

  function NameSet(vs: seq<View>): set<Option<string>> {
    set v | v in vs :: NameOf(v)
  }

  /** The overrides for other names, in their order. */
  function Unmatched(overrides: Overrides, names: set<Option<string>>): Overrides {
    if overrides == [] then []
    else (if Some(overrides[0].0) in names then [] else [overrides[0]]) + Unmatched(overrides[1..], names)
  }

  lemma {:induction false} UnmatchedNone(overrides: Overrides)
    ensures Unmatched(overrides, {}) == overrides
  {
    if overrides != [] {
      UnmatchedNone(overrides[1..]);
    }
  }

  lemma {:induction false} UnmatchedSame(overrides: Overrides, names: set<Option<string>>, more: Option<string>)
    requires forall e | e in overrides :: Some(e.0) != more
    ensures Unmatched(overrides, names + {more}) == Unmatched(overrides, names)
  {
    if overrides != [] {
      UnmatchedSame(overrides[1..], names, more);
    }
  }

  lemma FindAfterHead(head: (string, View), rest: Overrides, more: Option<string>)
    requires Some(head.0) != more
    ensures var all := [head] + rest;
            && Find(all, more) == 1 + Find(rest, more)
            && (Find(rest, more) < |rest| ==>
                  all[Find(all, more)] == rest[Find(rest, more)]
                  && Drop(all, Find(all, more)) == [head] + Drop(rest, Find(rest, more)))
  {
    assert ([head] + rest)[1..] == rest;
  }

  /** What popping a name does to the overrides still to place. */
  predicate Pops(overrides: Overrides, todo: Overrides, later: Overrides, more: Option<string>) {
    var k, all := Find(todo, more), Find(overrides, more);
    && (k < |todo| <==> all < |overrides|)
    && (if k < |todo| then todo[k] == overrides[all] && Drop(todo, k) == later else todo == later)
  }

  lemma PopsAfterHead(head: (string, View), overrides: Overrides, todo: Overrides, later: Overrides,
      more: Option<string>)
    requires Some(head.0) != more && Pops(overrides, todo, later, more)
    ensures Pops([head] + overrides, todo, later, more)
    ensures Pops([head] + overrides, [head] + todo, [head] + later, more)
  {
    FindAfterHead(head, overrides, more);
    FindAfterHead(head, todo, more);
  }

  lemma PopsHead(head: (string, View), overrides: Overrides, todo: Overrides)
    ensures Pops([head] + overrides, [head] + todo, todo, Some(head.0))
  {
    assert Drop([head] + todo, 0) == todo;
  }

  lemma UnmatchedHead(overrides: Overrides, names: set<Option<string>>)
    requires overrides != []
    ensures var rest := Unmatched(overrides[1..], names);
            Unmatched(overrides, names) == if Some(overrides[0].0) in names then rest else [overrides[0]] + rest
  {
  }

  /** Popping one more name. */
  lemma {:induction false} UnmatchedPop(overrides: Overrides, names: set<Option<string>>, more: Option<string>)
    requires DistinctKeys(overrides) && more !in names
    ensures Pops(overrides, Unmatched(overrides, names), Unmatched(overrides, names + {more}), more)
  {
    if overrides != [] {
      var head, tail := overrides[0], overrides[1..];
      assert overrides == [head] + tail;
      var rest, later := Unmatched(tail, names), Unmatched(tail, names + {more});
      UnmatchedHead(overrides, names);
      UnmatchedHead(overrides, names + {more});
      if Some(head.0) == more {
        assert forall e | e in tail :: Some(e.0) != more;
        UnmatchedSame(tail, names, more);
        PopsHead(head, tail, rest);
      } else {
        UnmatchedPop(tail, names, more);
        PopsAfterHead(head, tail, rest, later, more);
      }
    }
  }

  function PlacedAll(vs: seq<View>, overrides: Overrides, s: Settings, grpc: seq<Port>, raw: seq<Port>)
    : (r: seq<Option<View>>)
    ensures |r| == |vs| && forall i | 0 <= i < |vs| :: r[i] == Placed(vs[i], overrides, s, grpc, raw)
  {
    seq(|vs|, i requires 0 <= i < |vs| => Placed(vs[i], overrides, s, grpc, raw))
  }

  /** The pass over the containers, against each container on its own. */
  predicate Passed(vs: seq<View>, overrides: Overrides, s: Settings, grpc: seq<Port>, raw: seq<Port>) {
    PassedAs(MergedAll(vs, overrides, s, grpc, raw), PlacedAll(vs, overrides, s, grpc, raw),
      Unmatched(overrides, NameSet(vs)))
  }

  predicate PassedAs(all: Option<(seq<View>, Overrides)>, placed: seq<Option<View>>, left: Overrides) {
    && (all.Some? <==> forall i | 0 <= i < |placed| :: placed[i].Some?)
    && (all.Some? ==>
          && |all.value.0| == |placed|
          && (forall i | 0 <= i < |placed| :: placed[i] == Some(all.value.0[i]))
          && all.value.1 == left)
  }

  /** The pass over the others, and one container more. */
  function Combined(before: Option<(seq<View>, Overrides)>, one: Option<(View, Overrides)>)
    : Option<(seq<View>, Overrides)>
  {
    if before.None? || one.None? then None else Some((before.value.0 + [one.value.0], one.value.1))
  }

  lemma PassedMore(before: Option<(seq<View>, Overrides)>, one: Option<(View, Overrides)>, placed: seq<Option<View>>,
      leftBefore: Overrides, left: Overrides)
    requires placed != [] && PassedAs(before, placed[..|placed| - 1], leftBefore)
    requires before.Some? ==> (one.Some? <==> placed[|placed| - 1].Some?)
    requires before.Some? && one.Some? ==> one.value == (placed[|placed| - 1].value, left)
    ensures PassedAs(Combined(before, one), placed, left)
  {
    var n := |placed| - 1;
    assert forall i | 0 <= i < n :: placed[..n][i] == placed[i];
  }

  lemma PlacedPrefix(vs: seq<View>, overrides: Overrides, s: Settings, grpc: seq<Port>, raw: seq<Port>)
    requires vs != []
    ensures PlacedAll(vs, overrides, s, grpc, raw)[..|vs| - 1] == PlacedAll(vs[..|vs| - 1], overrides, s, grpc, raw)
  {
  }

  lemma OneIsPlaced(v: View, overrides: Overrides, names: set<Option<string>>, s: Settings, grpc: seq<Port>,
      raw: seq<Port>)
    requires DistinctKeys(overrides) && NameOf(v) !in names
    ensures var one := MergedOne(v, Unmatched(overrides, names), s, grpc, raw);
            var placed := Placed(v, overrides, s, grpc, raw);
            && (one.Some? <==> placed.Some?)
            && (one.Some? ==> one.value == (placed.value, Unmatched(overrides, names + {NameOf(v)})))
  {
    UnmatchedPop(overrides, names, NameOf(v));
  }

  lemma NameSetMore(vs: seq<View>)
    requires vs != []
    ensures NameSet(vs) == NameSet(vs[..|vs| - 1]) + {NameOf(vs[|vs| - 1])}
  {
    assert vs == vs[..|vs| - 1] + [vs[|vs| - 1]];
    assert forall v | v in vs[..|vs| - 1] :: v in vs;
    assert vs[|vs| - 1] in vs;
  }

  lemma PassedStep(vs: seq<View>, overrides: Overrides, s: Settings, grpc: seq<Port>, raw: seq<Port>)
    requires vs != [] && DistinctKeys(overrides) && Passed(vs[..|vs| - 1], overrides, s, grpc, raw)
    requires NameOf(vs[|vs| - 1]) !in NameSet(vs[..|vs| - 1])
    ensures Passed(vs, overrides, s, grpc, raw)
  {
    var n := |vs| - 1;
    var before := MergedAll(vs[..n], overrides, s, grpc, raw);
    var one := if before.None? then None else MergedOne(vs[n], before.value.1, s, grpc, raw);
    NameSetMore(vs);
    OneIsPlaced(vs[n], overrides, NameSet(vs[..n]), s, grpc, raw);
    PlacedPrefix(vs, overrides, s, grpc, raw);
    MergedByOne(vs, overrides, s, grpc, raw);
    PassedMore(before, one, PlacedAll(vs, overrides, s, grpc, raw),
      Unmatched(overrides, NameSet(vs[..n])), Unmatched(overrides, NameSet(vs)));
  }

  lemma MergedByOne(vs: seq<View>, overrides: Overrides, s: Settings, grpc: seq<Port>, raw: seq<Port>)
    requires vs != []
    ensures var n := |vs| - 1;
            var before := MergedAll(vs[..n], overrides, s, grpc, raw);
            MergedAll(vs, overrides, s, grpc, raw)
              == Combined(before, if before.None? then None else MergedOne(vs[n], before.value.1, s, grpc, raw))
  {
  }

  lemma PassedEmpty(overrides: Overrides, s: Settings, grpc: seq<Port>, raw: seq<Port>)
    ensures Passed([], overrides, s, grpc, raw)
  {
    UnmatchedNone(overrides);
    assert NameSet([]) == {};
  }

  lemma DistinctPrefix(vs: seq<View>, overrides: Overrides)
    requires Distinct(vs, overrides) && vs != []
    ensures var n := |vs| - 1;
            Distinct(vs[..n], overrides) && NameOf(vs[n]) !in NameSet(vs[..n])
  {
    var n := |vs| - 1;
    assert forall i | 0 <= i < n :: vs[..n][i] == vs[i];
    assert forall v | v in vs[..n] :: NameOf(v) != NameOf(vs[n]);
  }

  /** The one pass that pops overrides as it goes computes every container on its own. */
  lemma {:induction false} MergedIsPlaced(vs: seq<View>, overrides: Overrides, s: Settings, grpc: seq<Port>,
      raw: seq<Port>)
    requires Distinct(vs, overrides)
    ensures Passed(vs, overrides, s, grpc, raw)
    decreases |vs|
  {
    if vs == [] {
      PassedEmpty(overrides, s, grpc, raw);
    } else {
      DistinctPrefix(vs, overrides);
      MergedIsPlaced(vs[..|vs| - 1], overrides, s, grpc, raw);
      PassedStep(vs, overrides, s, grpc, raw);
    }
  }

  /** The merged list position by position. */
  ghost predicate Lists(r: seq<View>, vs: seq<View>, overrides: Overrides, s: Settings, grpc: seq<Port>,
      raw: seq<Port>) {
    var rest := Unmatched(overrides, NameSet(vs));
    && |r| == |vs| + |rest|
    && (forall i | 0 <= i < |vs| :: Placed(vs[i], overrides, s, grpc, raw) == Some(r[i]))
    && (forall i | |vs| <= i < |r| :: r[i] == Added(rest[i - |vs|].0, rest[i - |vs|].1))
  }

  lemma MergedLists(vs: seq<View>, overrides: Overrides, s: Settings, grpc: seq<Port>, raw: seq<Port>)
    requires Distinct(vs, overrides) && Merged(vs, overrides, s, grpc, raw).Some?
    ensures Lists(Merged(vs, overrides, s, grpc, raw).value, vs, overrides, s, grpc, raw)
  {
    MergedIsPlaced(vs, overrides, s, grpc, raw);
    var all, placed := MergedAll(vs, overrides, s, grpc, raw), PlacedAll(vs, overrides, s, grpc, raw);
    var added, r := AddedAll(all.value.1), Merged(vs, overrides, s, grpc, raw).value;
    Behind(all.value.0, added, placed);
    forall i | |vs| <= i < |r|
      ensures r[i] == Added(all.value.1[i - |vs|].0, all.value.1[i - |vs|].1)
    {
      assert r[i] == added[i - |vs|];
    }
  }

  lemma Behind(done: seq<View>, added: seq<View>, placed: seq<Option<View>>)
    requires |done| == |placed| && forall i | 0 <= i < |placed| :: placed[i] == Some(done[i])
    ensures var r := done + added;
            && (forall i | 0 <= i < |placed| :: placed[i] == Some(r[i]))
            && forall i | |placed| <= i < |r| :: r[i] == added[i - |placed|]
  {
  }

  lemma EditsKeepName(v: View, s: Settings, grpc: seq<Port>, raw: seq<Port>)
    requires Edited(v, s, grpc, raw).Some?
    ensures NameOf(Edited(v, s, grpc, raw).value) == NameOf(v)
  {
  }

  function Names(vs: seq<View>): (r: seq<Option<string>>)
    ensures |r| == |vs| && forall i | 0 <= i < |vs| :: r[i] == NameOf(vs[i])
  {
    seq(|vs|, i requires 0 <= i < |vs| => NameOf(vs[i]))
  }

  function Keys(overrides: Overrides): (r: seq<Option<string>>)
    ensures |r| == |overrides| && forall i | 0 <= i < |overrides| :: r[i] == Some(overrides[i].0)
  {
    seq(|overrides|, i requires 0 <= i < |overrides| => Some(overrides[i].0))
  }

  /** No override renames the container it is for. */
  predicate KeepsNames(overrides: Overrides) {
    forall e | e in overrides :: "name" in e.1.fields ==> e.1.fields["name"] == Str(e.0)
  }

  lemma OverriddenName(v: View, e: (string, View))
    requires NameOf(v) == Some(e.0)
    ensures NameOf(Overridden(v, e.1)) == Some(e.0) <==> ("name" in e.1.fields ==> e.1.fields["name"] == Str(e.0))
  {
  }

  lemma {:induction false} UnmatchedMembers(overrides: Overrides, names: set<Option<string>>)
    ensures forall e :: e in Unmatched(overrides, names) <==> e in overrides && Some(e.0) !in names
  {
    if overrides != [] {
      UnmatchedMembers(overrides[1..], names);
      assert overrides == [overrides[0]] + overrides[1..];
    }
  }

  lemma PlacedName(v: View, overrides: Overrides, s: Settings, grpc: seq<Port>, raw: seq<Port>)
    requires Placed(v, overrides, s, grpc, raw).Some? && NameOf(v).Some?
    ensures NameOf(Placed(v, overrides, s, grpc, raw).value) == NameOf(v)
            <==> (var k := Find(overrides, NameOf(v));
                  k < |overrides| && "name" in overrides[k].1.fields ==>
                      overrides[k].1.fields["name"] == Str(overrides[k].0))
  {
    EditsKeepName(v, s, grpc, raw);
    var k := Find(overrides, NameOf(v));
    if k < |overrides| {
      OverriddenName(Edited(v, s, grpc, raw).value, overrides[k]);
    }
  }

  lemma NameAt(r: seq<View>, vs: seq<View>, overrides: Overrides, s: Settings, grpc: seq<Port>, raw: seq<Port>, i: nat)
    requires Distinct(vs, overrides) && Lists(r, vs, overrides, s, grpc, raw) && i < |r|
    ensures NameOf(r[i]) == (Names(vs) + Keys(Unmatched(overrides, NameSet(vs))))[i] <==> Fits(vs, overrides, i)
  {
    if i < |vs| {
      PlacedName(vs[i], overrides, s, grpc, raw);
    } else {
      var e := Unmatched(overrides, NameSet(vs))[i - |vs|];
      OverriddenName(View(map["name" := Str(e.0)], None), e);
    }
  }

  /** The merged list names the template's containers in order and then the unmatched overrides in
      order, exactly when no override carries a different `name`. */
  lemma NamesExact(vs: seq<View>, overrides: Overrides, s: Settings, grpc: seq<Port>, raw: seq<Port>)
    requires Distinct(vs, overrides) && Merged(vs, overrides, s, grpc, raw).Some?
    ensures Names(Merged(vs, overrides, s, grpc, raw).value) == Names(vs) + Keys(Unmatched(overrides, NameSet(vs)))
            <==> KeepsNames(overrides)
  {
    MergedLists(vs, overrides, s, grpc, raw);
    NamesOfList(Merged(vs, overrides, s, grpc, raw).value, vs, overrides, s, grpc, raw);
  }

  lemma NamesOfList(r: seq<View>, vs: seq<View>, overrides: Overrides, s: Settings, grpc: seq<Port>, raw: seq<Port>)
    requires Distinct(vs, overrides) && Lists(r, vs, overrides, s, grpc, raw)
    ensures Names(r) == Names(vs) + Keys(Unmatched(overrides, NameSet(vs))) <==> KeepsNames(overrides)
  {
    var expected := Names(vs) + Keys(Unmatched(overrides, NameSet(vs)));
    forall i | 0 <= i < |r| ensures Names(r)[i] == expected[i] <==> Fits(vs, overrides, i) {
      NameAt(r, vs, overrides, s, grpc, raw, i);
    }
    if KeepsNames(overrides) {
      UnmatchedMembers(overrides, NameSet(vs));
      assert forall i | 0 <= i < |r| :: Fits(vs, overrides, i);
      assert Names(r) == expected;
    } else {
      var e :| e in overrides && !("name" in e.1.fields ==> e.1.fields["name"] == Str(e.0));
      var i := PlaceOf(vs, overrides, e);
      assert !Fits(vs, overrides, i);
    }
  }

  /** The override behind position `i` of the merged list, if any, keeps its name. */
  predicate Fits(vs: seq<View>, overrides: Overrides, i: nat) {
    var rest := Unmatched(overrides, NameSet(vs));
    if i < |vs| then
      var k := Find(overrides, NameOf(vs[i]));
      k < |overrides| && "name" in overrides[k].1.fields ==> overrides[k].1.fields["name"] == Str(overrides[k].0)
    else
      i - |vs| < |rest| && "name" in rest[i - |vs|].1.fields ==>
          rest[i - |vs|].1.fields["name"] == Str(rest[i - |vs|].0)
  }

  /** Every override is placed: by a template container of its name, or as a container of its own. */
  lemma PlaceOf(vs: seq<View>, overrides: Overrides, e: (string, View)) returns (i: nat)
    requires Distinct(vs, overrides) && e in overrides
    ensures i < |vs| + |Unmatched(overrides, NameSet(vs))|
    ensures if i < |vs| then NameOf(vs[i]) == Some(e.0) && Find(overrides, NameOf(vs[i])) < |overrides|
                             && overrides[Find(overrides, NameOf(vs[i]))] == e
            else Unmatched(overrides, NameSet(vs))[i - |vs|] == e
  {
    UnmatchedMembers(overrides, NameSet(vs));
    if Some(e.0) in NameSet(vs) {
      var v :| v in vs && NameOf(v) == Some(e.0);
      i :| 0 <= i < |vs| && vs[i] == v;
      var k :| 0 <= k < |overrides| && overrides[k] == e;
      var f := Find(overrides, NameOf(v));
      assert f < |overrides| && overrides[f].0 == e.0;
    } else {
      var rest := Unmatched(overrides, NameSet(vs));
      var k :| 0 <= k < |rest| && rest[k] == e;
      i := |vs| + k;
    }
  }

  predicate Carries(v: View, config: View) {
    && (forall k | k in config.fields :: k in v.fields && v.fields[k] == config.fields[k])
    && (config.ports.Some? ==> v.ports == config.ports)
  }

  lemma PlacedCarries(v: View, overrides: Overrides, s: Settings, grpc: seq<Port>, raw: seq<Port>)
    requires Placed(v, overrides, s, grpc, raw).Some? && Find(overrides, NameOf(v)) < |overrides|
    ensures Edited(v, s, grpc, raw).Some?
    ensures var config := overrides[Find(overrides, NameOf(v))].1;
            && Placed(v, overrides, s, grpc, raw) == Some(Overridden(Edited(v, s, grpc, raw).value, config))
            && Carries(Placed(v, overrides, s, grpc, raw).value, config)
  {
  }

  /** An override replaces the fields it names and keeps the others; a new container has its name and the override. */
  lemma OverrideExactly(v: View, config: View, name: string)
    ensures var r := Overridden(v, config);
            && (forall k :: k in r.fields <==> k in v.fields || k in config.fields)
            && (forall k | k in r.fields ::
                  r.fields[k] == if k in config.fields then config.fields[k] else v.fields[k])
            && r.ports == if config.ports == None then v.ports else config.ports
    ensures var added := Added(name, config);
            && (forall k :: k in added.fields <==> k == "name" || k in config.fields)
            && (forall k | k in added.fields ::
                  added.fields[k] == if k in config.fields then config.fields[k] else Str(name))
            && added.ports == config.ports
  {
  }

  /** Every override is in force on some container, over every edit: the one of its name, which keeps
      its other edits, or a new one. */
  lemma OverrideWins(vs: seq<View>, overrides: Overrides, s: Settings, grpc: seq<Port>, raw: seq<Port>,
      e: (string, View))
    returns (i: nat)
    requires Distinct(vs, overrides) && Merged(vs, overrides, s, grpc, raw).Some? && e in overrides
    ensures i < |Merged(vs, overrides, s, grpc, raw).value|
    ensures Carries(Merged(vs, overrides, s, grpc, raw).value[i], e.1)
    ensures i < |vs| ==>
              && NameOf(vs[i]) == Some(e.0) && Edited(vs[i], s, grpc, raw).Some?
              && Merged(vs, overrides, s, grpc, raw).value[i] == Overridden(Edited(vs[i], s, grpc, raw).value, e.1)
  {
    MergedLists(vs, overrides, s, grpc, raw);
    i := OverrideWinsIn(Merged(vs, overrides, s, grpc, raw).value, vs, overrides, s, grpc, raw, e);
  }

  lemma OverrideWinsIn(r: seq<View>, vs: seq<View>, overrides: Overrides, s: Settings, grpc: seq<Port>,
      raw: seq<Port>, e: (string, View))
    returns (i: nat)
    requires Distinct(vs, overrides) && Lists(r, vs, overrides, s, grpc, raw) && e in overrides
    ensures i < |r| && Carries(r[i], e.1)
    ensures i < |vs| ==>
              && NameOf(vs[i]) == Some(e.0) && Edited(vs[i], s, grpc, raw).Some?
              && r[i] == Overridden(Edited(vs[i], s, grpc, raw).value, e.1)
  {
    i := PlaceOf(vs, overrides, e);
    if i < |vs| {
      PlacedCarries(vs[i], overrides, s, grpc, raw);
    } else {
      var rest := Unmatched(overrides, NameSet(vs));
      assert r[i] == Added(rest[i - |vs|].0, rest[i - |vs|].1);
    }
  }
}
