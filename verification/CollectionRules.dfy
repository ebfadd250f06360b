/** Which collected tests run, and with which marks, in the terms of the command line and the tests' own keywords. */
module CollectionRules {
  import opened Wrappers
  import opened Selection
  import opened Collection

  predicate Fits(keywords: set<string>, modes: seq<string>) {
    modes == [] || exists n | 0 <= n < |modes| :: modes[n] != "" && modes[n] in keywords
  }

  lemma FitsAgrees(m: Marks, modes: seq<string>)
    ensures ModeFits(m, modes) <==> Fits(m.keywords, modes)
  {
    if n :| 0 <= n < |modes| && modes[n] != "" && modes[n] in m.keywords {
      assert modes[n] in modes;
    }
  }

  /** The root hook item by item: what runs with either option, with both and with none. */
  lemma RunsExactly(items: seq<Id>, marks: map<Id, Marks>, o: Options, i: Id)
    requires Unique(items) && i in items && i in marks
    ensures var k := marks[i].keywords;
            var pre := "pre_upgrade" in k && Fits(k, o.modes);
            var post := "post_upgrade" in k && Fits(k, o.modes);
            i in Selected(items, marks, o) <==>
              if o.preUpgrade && o.postUpgrade then pre || post
              else if o.preUpgrade then pre
              else if o.postUpgrade then post
              else "install" in k || (!pre && !post)
  {
    SelectedMembers(items, marks, o);
    FitsAgrees(marks[i], o.modes);
  }

  /** In a combined run every pre-upgrade test comes before every other, each group in the order of collection. */
  lemma CombinedOrder(items: seq<Id>, marks: map<Id, Marks>, o: Options)
    requires o.preUpgrade && o.postUpgrade && forall k | 0 <= k < |items| :: items[k] in marks
    ensures var pre := (i: Id) => i in marks && "pre_upgrade" in marks[i].keywords && Fits(marks[i].keywords, o.modes);
            var post := (i: Id) => i in marks && "post_upgrade" in marks[i].keywords
                                   && "pre_upgrade" !in marks[i].keywords && Fits(marks[i].keywords, o.modes);
            Selected(items, marks, o) == Select(items, pre) + Select(items, post)
  {
    var pre := (i: Id) => i in marks && "pre_upgrade" in marks[i].keywords && Fits(marks[i].keywords, o.modes);
    var post := (i: Id) => i in marks && "post_upgrade" in marks[i].keywords
                           && "pre_upgrade" !in marks[i].keywords && Fits(marks[i].keywords, o.modes);
    forall k | 0 <= k < |items|
      ensures Pre(marks, o)(items[k]) == pre(items[k]) && PostOnly(marks, o)(items[k]) == post(items[k])
    {
      FitsAgrees(marks[items[k]], o.modes);
    }
    SelectSame(items, Pre(marks, o), pre);
    SelectSame(items, PostOnly(marks, o), post);
  }

  predicate UnderMarkedPath(nodeId: string) {
    || "tests/model_registry" <= nodeId
    || "tests/model_explainability" <= nodeId
    || "tests/model_serving/maas_billing" <= nodeId
  }

  /** The default mark: a listed test under one of the three paths gets it unless it has a tier, is a smoke test or an
      upgrade test; no other test, and no other mark, changes. */
  lemma MarkedExactly(items: seq<Id>, info: map<Id, Static>, marks: map<Id, Marks>, i: Id)
    requires Collection.Known(items, info, marks) && i in marks
    ensures i in Marked(items, info, marks)
    ensures var before, after := marks[i], Marked(items, info, marks)[i];
            if i in items && UnderMarkedPath(info[i].nodeId) && "smoke" !in before.markers && "tier1" !in before.markers
              && "tier2" !in before.markers && "tier3" !in before.markers && "pre_upgrade" !in before.markers
              && "post_upgrade" !in before.markers
            then after == Marks(before.keywords + {"tier2"}, before.markers + {"tier2"})
            else after == before
  {
    if i in info {
      PathsAre(info[i].nodeId);
      ExcludedAre(marks[i].markers);
    }
  }

  lemma PathsAre(nodeId: string)
    ensures (exists k | 0 <= k < |MARKED_PATHS| :: MARKED_PATHS[k] <= nodeId) <==> UnderMarkedPath(nodeId)
  {
    assert MARKED_PATHS[0] == "tests/model_registry" && MARKED_PATHS[1] == "tests/model_explainability"
           && MARKED_PATHS[2] == "tests/model_serving/maas_billing" && |MARKED_PATHS| == 3;
  }

  lemma ExcludedAre(markers: set<string>)
    ensures markers !! EXCLUDED <==>
              && "smoke" !in markers && "tier1" !in markers && "tier2" !in markers && "tier3" !in markers
              && "pre_upgrade" !in markers && "post_upgrade" !in markers
  {
    assert forall m | m in EXCLUDED ::
        m in ["smoke", "tier1", "tier2", "tier3", "pre_upgrade", "post_upgrade"];
    assert "smoke" in EXCLUDED && "tier1" in EXCLUDED && "tier2" in EXCLUDED && "tier3" in EXCLUDED
           && "pre_upgrade" in EXCLUDED && "post_upgrade" in EXCLUDED;
  }

  /** The registry hook item by item: what a parametrized test must fit to stay. */
  lemma StaysExactly(s: State, info: map<Id, Static>, i: Id)
    requires i in s.items && i in info && i in s.marks
    ensures i in RegistryHook(s, info).items <==>
              || info[i].params.None?
              || (var k, p := s.marks[i].keywords, info[i].params.value;
                  && ("test_requires_default_db" in k ==> p.dbName == Some("default"))
                  && ("test_huggingface_source" in k ==> "test_skip_on_huggingface_source" !in k)
                  && ("test_postgres_network_policy_only" in k ==> p.networkPolicy != Some("model-catalog-https-route"))
                  && ("test_https_route_network_policy_only" in k ==>
                        p.networkPolicy == Some("model-catalog-https-route")))
  {
    SelectMembers(s.items, Stay(info, s.marks));
  }
}
