/**
 Test selection: the root `pytest_collection_modifyitems` with its default tier2 marking, and the model
 registry's hook over the same list. Items are identified by numbers; what the hooks change about an item
 is its marks, what they replace is the list.
 */
module Collection {
  import opened Wrappers
  import opened Selection

  type Id = int

  /** `keywords` also holds names that are no markers. */
  datatype Marks = Marks(keywords: set<string>, markers: set<string>)

  /** Parameters of a parametrized item, as far as the registry hook reads them. */
  datatype Params = Params(dbName: Option<string>, networkPolicy: Option<string>)

  datatype Static = Static(nodeId: string, params: Option<Params>)

  datatype Options = Options(preUpgrade: bool, postUpgrade: bool, modes: seq<string>)

  const TIER2 := "tier2"
  const EXCLUDED := {"smoke", "tier1", "tier2", "tier3", "pre_upgrade", "post_upgrade"}
  const MARKED_PATHS := ["tests/model_registry", "tests/model_explainability", "tests/model_serving/maas_billing"]

  // ----- Filters

  function MarksOf(marks: map<Id, Marks>, i: Id): Marks {
    if i in marks then marks[i] else Marks({}, {})
  }

  predicate ModeFits(m: Marks, modes: seq<string>) {
    modes == [] || exists k :: k in m.keywords && k in modes && k != ""
  }

  predicate IsPre(m: Marks, modes: seq<string>) {
    "pre_upgrade" in m.keywords && ModeFits(m, modes)
  }

  predicate IsPost(m: Marks, modes: seq<string>) {
    "post_upgrade" in m.keywords && ModeFits(m, modes)
  }

  /** Everything else, and upgrade tests that may be reused in a fresh installation. */
  predicate IsNonUpgrade(m: Marks, modes: seq<string>) {
    (!IsPre(m, modes) && !IsPost(m, modes)) || "install" in m.keywords
  }

  function Pre(marks: map<Id, Marks>, o: Options): Id -> bool {
    i => IsPre(MarksOf(marks, i), o.modes)
  }

  function Post(marks: map<Id, Marks>, o: Options): Id -> bool {
    i => IsPost(MarksOf(marks, i), o.modes)
  }

  function NonUpgrade(marks: map<Id, Marks>, o: Options): Id -> bool {
    i => IsNonUpgrade(MarksOf(marks, i), o.modes)
  }

  function PostOnly(marks: map<Id, Marks>, o: Options): Id -> bool {
    i => IsPost(MarksOf(marks, i), o.modes) && !IsPre(MarksOf(marks, i), o.modes)
  }

  function NotKept(marks: map<Id, Marks>, o: Options): Id -> bool {
    i => !Kept(MarksOf(marks, i), o)
  }

  function Drop(info: map<Id, Static>, marks: map<Id, Marks>): Id -> bool {
    i => i in info && Dropped(info[i], MarksOf(marks, i))
  }

  function Stay(info: map<Id, Static>, marks: map<Id, Marks>): Id -> bool {
    i => !(i in info && Dropped(info[i], MarksOf(marks, i)))
  }

  function NotIn(items: seq<Id>): Id -> bool {
    i => i !in items
  }

  /** What is left to run: in a combined run the pre-upgrade items, then the post-upgrade items not among them. */
  function Selected(items: seq<Id>, marks: map<Id, Marks>, o: Options): seq<Id> {
    if o.preUpgrade && o.postUpgrade then Select(items, Pre(marks, o)) + Select(items, PostOnly(marks, o))
    else if o.preUpgrade then Select(items, Pre(marks, o))
    else if o.postUpgrade then Select(items, Post(marks, o))
    else Select(items, NonUpgrade(marks, o))
  }

  /** Whether the root hook keeps an item, whatever else is collected. */
  predicate Kept(m: Marks, o: Options) {
    if o.preUpgrade || o.postUpgrade then (o.preUpgrade && IsPre(m, o.modes)) || (o.postUpgrade && IsPost(m, o.modes))
    else IsNonUpgrade(m, o.modes)
  }

  predicate NeedsTier2(s: Static, m: Marks) {
    (exists k | 0 <= k < |MARKED_PATHS| :: MARKED_PATHS[k] <= s.nodeId) && m.markers !! EXCLUDED
  }

  function AddTier2(m: Marks): Marks {
    Marks(m.keywords + {TIER2}, m.markers + {TIER2})
  }

  function Marked(items: seq<Id>, info: map<Id, Static>, marks: map<Id, Marks>): map<Id, Marks> {
    map i | i in marks :: if i in items && i in info && NeedsTier2(info[i], marks[i]) then AddTier2(marks[i])
        else marks[i]
  }

  /** Why the registry hook drops an item, in its order; never for an item without parameters. */
  predicate Dropped(s: Static, m: Marks) {
    s.params.Some?
    && (("test_requires_default_db" in m.keywords && s.params.value.dbName != Some("default"))
        || ("test_huggingface_source" in m.keywords && "test_skip_on_huggingface_source" in m.keywords)
        || ("test_postgres_network_policy_only" in m.keywords
            && s.params.value.networkPolicy == Some("model-catalog-https-route"))
        || ("test_https_route_network_policy_only" in m.keywords
            && s.params.value.networkPolicy != Some("model-catalog-https-route")))
  }

  predicate Known(items: seq<Id>, info: map<Id, Static>, marks: map<Id, Marks>) {
    forall i | i in items :: i in info && i in marks
  }

  // ----- The code

  datatype State = State(items: seq<Id>, marks: map<Id, Marks>, deselected: seq<Id>)

  function RootHook(s: State, info: map<Id, Static>, o: Options): State {
    var left := Selected(s.items, s.marks, o);
    State(left, Marked(left, info, s.marks), s.deselected + Select(s.items, NotKept(s.marks, o)))
  }

  function RegistryHook(s: State, info: map<Id, Static>): State {
    State(Select(s.items, Stay(info, s.marks)), s.marks, s.deselected + Select(s.items, Drop(info, s.marks)))
  }

  class Session {
    const info: map<Id, Static>
    var items: seq<Id>
    var marks: map<Id, Marks>
    var deselected: seq<Id>

    constructor (info: map<Id, Static>, items: seq<Id>, marks: map<Id, Marks>)
      ensures this.info == info && Now() == State(items, marks, [])
    {
      this.info, this.items, this.marks, deselected := info, items, marks, [];
    }

    function Now(): State
      reads this
    {
      State(items, marks, deselected)
    }

    /** The single classification loop of the root hook. */
    method Classify(o: Options) returns (pre: seq<Id>, post: seq<Id>, non: seq<Id>)
      ensures pre == Select(items, Pre(marks, o))
      ensures post == Select(items, Post(marks, o))
      ensures non == Select(items, NonUpgrade(marks, o))
    {
      pre, post, non := [], [], [];
      var n := 0;
      while n < |items|
        invariant 0 <= n <= |items|
        invariant pre == Select(items[..n], Pre(marks, o))
        invariant post == Select(items[..n], Post(marks, o))
        invariant non == Select(items[..n], NonUpgrade(marks, o))
      {
        var item := items[n];
        var m := MarksOf(marks, item);
        assert items[..n + 1][..n] == items[..n];
        if "pre_upgrade" in m.keywords && ModeFits(m, o.modes) {
          pre := pre + [item];
          if "install" in m.keywords {
            non := non + [item];
          }
          if "post_upgrade" in m.keywords {
            post := post + [item];
          }
        } else if "post_upgrade" in m.keywords && ModeFits(m, o.modes) {
          post := post + [item];
          if "install" in m.keywords {
            non := non + [item];
          }
          if "pre_upgrade" in m.keywords {
            pre := pre + [item];
          }
        } else {
          non := non + [item];
        }
        n := n + 1;
      }
      assert items[..n] == items;
    }

    method RootModifyItems(o: Options)
      requires Unique(items) && Known(items, info, marks)
      modifies this
      ensures Now() == RootHook(old(Now()), info, o)
    {
      var original := items;
      var pre, post, non := Classify(o);
      ghost var was := marks;
      SelectedMembers(original, was, o);
      if o.preUpgrade && o.postUpgrade {
        PreThenPost(original, was, o);
        items := FromKeys(pre, post);
      } else if o.preUpgrade {
        items := pre;
      } else if o.postUpgrade {
        items := post;
      } else {
        items := non;
      }
      assert items == Selected(original, was, o);
      var removed := Without(original, items);
      SelectSame(original, NotIn(items), NotKept(was, o));
      if removed != [] {
        deselected := deselected + removed;
      }
      AddDefaultTier2Marker();
    }

    method AddDefaultTier2Marker()
      requires Known(items, info, marks)
      modifies this`marks
      ensures marks == Marked(items, info, old(marks))
    {
      ghost var was := marks;
      assert marks == Marked(items[..0], info, was);
      var n := 0;
      while n < |items|
        invariant 0 <= n <= |items|
        invariant marks == Marked(items[..n], info, was)
      {
        var item := items[n];
        assert items[..n + 1] == items[..n] + [item];
        if NeedsTier2(info[item], marks[item]) {
          marks := marks[item := AddTier2(marks[item])];
        }
        n := n + 1;
      }
      assert items[..n] == items;
    }

    method RegistryModifyItems()
      requires Known(items, info, marks)
      modifies this`items, this`deselected
      ensures Now() == RegistryHook(old(Now()), info)
    {
      var remaining, removed := Sift(items, info, marks);
      NothingDropped(items, Drop(info, marks), Stay(info, marks));
      if removed != [] {
        items := remaining;
        deselected := deselected + removed;
      }
    }
  }

  /** `list(dict.fromkeys(pre + post))`: the first occurrence of each. */
  method FromKeys(pre: seq<Id>, post: seq<Id>) returns (r: seq<Id>)
    requires Unique(pre) && Unique(post)
    ensures r == pre + Select(post, NotIn(pre))
  {
    r := pre;
    var n := 0;
    while n < |post|
      invariant 0 <= n <= |post|
      invariant r == pre + Select(post[..n], NotIn(pre))
      invariant forall i :: i in r <==> i in pre || i in post[..n]
    {
      assert post[..n + 1][..n] == post[..n] && post[n] !in post[..n];
      assert post[..n + 1] == post[..n] + [post[n]];
      if post[n] !in r {
        r := r + [post[n]];
      }
      n := n + 1;
    }
    assert post[..n] == post;
  }

  /** The loop of the registry hook. */
  method Sift(items: seq<Id>, info: map<Id, Static>, marks: map<Id, Marks>)
      returns (remaining: seq<Id>, removed: seq<Id>)
    requires Known(items, info, marks)
    ensures remaining == Select(items, Stay(info, marks))
    ensures removed == Select(items, Drop(info, marks))
  {
    remaining, removed := [], [];
    var stay, drop := Stay(info, marks), Drop(info, marks);
    var n := 0;
    while n < |items|
      invariant 0 <= n <= |items|
      invariant remaining == Select(items[..n], stay)
      invariant removed == Select(items[..n], drop)
    {
      var item := items[n];
      assert items[..n + 1][..n] == items[..n];
      if Dropped(info[item], MarksOf(marks, item)) {
        assert drop(item) && !stay(item);
        removed := removed + [item];
      } else {
        assert !drop(item) && stay(item);
        remaining := remaining + [item];
      }
      n := n + 1;
    }
    assert items[..n] == items;
  }

  method Without(original: seq<Id>, remaining: seq<Id>) returns (r: seq<Id>)
    ensures r == Select(original, NotIn(remaining))
  {
    r := [];
    var n := 0;
    while n < |original|
      invariant 0 <= n <= |original|
      invariant r == Select(original[..n], NotIn(remaining))
    {
      assert original[..n + 1][..n] == original[..n];
      if original[n] !in remaining {
        r := r + [original[n]];
      }
      n := n + 1;
    }
    assert original[..n] == original;
  }

  // ----- What is left to run

  lemma PreThenPost(items: seq<Id>, marks: map<Id, Marks>, o: Options)
    requires Unique(items)
    ensures var pre, post := Select(items, Pre(marks, o)), Select(items, Post(marks, o));
            && Unique(pre) && Unique(post)
            && Select(post, NotIn(pre)) == Select(items, PostOnly(marks, o))
  {
    var pre := Select(items, Pre(marks, o));
    SelectMembers(items, Pre(marks, o));
    SelectMembers(items, Post(marks, o));
    SelectTwice(items, Post(marks, o), NotIn(pre), PostOnly(marks, o));
  }

  /** The list left to run holds exactly the items kept one by one, none of them twice. */
  lemma SelectedMembers(items: seq<Id>, marks: map<Id, Marks>, o: Options)
    requires Unique(items)
    ensures forall i :: i in Selected(items, marks, o) <==> i in items && Kept(MarksOf(marks, i), o)
    ensures Unique(Selected(items, marks, o))
  {
    SelectMembers(items, Pre(marks, o));
    SelectMembers(items, Post(marks, o));
    SelectMembers(items, NonUpgrade(marks, o));
    SelectMembers(items, PostOnly(marks, o));
    var a, b := Select(items, Pre(marks, o)), Select(items, PostOnly(marks, o));
    if o.preUpgrade && o.postUpgrade {
      UniqueConcat(a, b);
    }
  }

  // ----- Both hooks

  /** Marking twice is marking once: a marked item is excluded from the second round. */
  lemma MarkingIdempotent(items: seq<Id>, info: map<Id, Static>, marks: map<Id, Marks>)
    ensures Marked(items, info, Marked(items, info, marks)) == Marked(items, info, marks)
  {
    forall i | i in marks
      ensures Marked(items, info, Marked(items, info, marks))[i] == Marked(items, info, marks)[i]
    {
      assert TIER2 in AddTier2(marks[i]).markers && TIER2 in EXCLUDED;
    }
  }

  /** The default marker is none of the keywords the registry hook looks at. */
  lemma MarkingKeepsVerdict(items: seq<Id>, info: map<Id, Static>, marks: map<Id, Marks>, i: Id)
    ensures Stay(info, Marked(items, info, marks))(i) == Stay(info, marks)(i)
    ensures Drop(info, Marked(items, info, marks))(i) == Drop(info, marks)(i)
  {
    if i in marks && i in info && NeedsTier2(info[i], marks[i]) && i in items {
      AddTier2KeepsDropped(info[i], marks[i]);
    }
  }

  lemma AddTier2KeepsDropped(s: Static, m: Marks)
    ensures Dropped(s, AddTier2(m)) == Dropped(s, m)
  {
    var k := AddTier2(m).keywords;
    assert forall w :: w in k <==> w in m.keywords || w == TIER2;
  }

  lemma SelectSelected(items: seq<Id>, marks: map<Id, Marks>, o: Options, q: Id -> bool, r: Id -> bool)
    requires forall k | 0 <= k < |items| :: q(items[k]) == r(items[k])
    ensures Select(Selected(items, marks, o), q) == Selected(Select(items, r), marks, o)
  {
    SelectSwap(items, Pre(marks, o), q, r);
    SelectSwap(items, Post(marks, o), q, r);
    SelectSwap(items, PostOnly(marks, o), q, r);
    SelectSwap(items, NonUpgrade(marks, o), q, r);
    SelectConcat(Select(items, Pre(marks, o)), Select(items, PostOnly(marks, o)), q);
  }

  /** Every collected item ends up either in the list or among the deselected ones, exactly once. */
  ghost predicate Splits(before: seq<Id>, after: State) {
    && Unique(after.items) && Unique(after.deselected)
    && (forall i :: i in before <==> i in after.items || i in after.deselected)
    && (forall i | i in after.items :: i !in after.deselected)
  }

  lemma RootSplits(all: seq<Id>, s: State, info: map<Id, Static>, o: Options)
    requires Splits(all, s)
    ensures Splits(all, RootHook(s, info, o))
  {
    SelectedMembers(s.items, s.marks, o);
    SelectMembers(s.items, NotKept(s.marks, o));
    var d := Select(s.items, NotKept(s.marks, o));
    UniqueConcat(s.deselected, d);
  }

  lemma RegistrySplits(all: seq<Id>, s: State, info: map<Id, Static>)
    requires Splits(all, s)
    ensures Splits(all, RegistryHook(s, info))
  {
    SelectMembers(s.items, Stay(info, s.marks));
    SelectMembers(s.items, Drop(info, s.marks));
    var d := Select(s.items, Drop(info, s.marks));
    UniqueConcat(s.deselected, d);
  }

  function RootFirst(s: State, info: map<Id, Static>, o: Options): State {
    RegistryHook(RootHook(s, info, o), info)
  }

  function RegistryFirst(s: State, info: map<Id, Static>, o: Options): State {
    RootHook(RegistryHook(s, info), info, o)
  }

  lemma SameList(s: State, info: map<Id, Static>, o: Options)
    ensures RootFirst(s, info, o).items == RegistryFirst(s, info, o).items
  {
    var first := RootHook(s, info, o);
    forall k | 0 <= k < |s.items|
      ensures Stay(info, first.marks)(s.items[k]) == Stay(info, s.marks)(s.items[k])
    {
      MarkingKeepsVerdict(first.items, info, s.marks, s.items[k]);
    }
    SelectSelected(s.items, s.marks, o, Stay(info, first.marks), Stay(info, s.marks));
  }

  lemma SameMarks(s: State, info: map<Id, Static>, o: Options, i: Id)
    requires i in RootFirst(s, info, o).items
    ensures MarksOf(RootFirst(s, info, o).marks, i) == MarksOf(RegistryFirst(s, info, o).marks, i)
  {
    SameList(s, info, o);
    var first := RootHook(s, info, o);
    SelectMembers(first.items, Stay(info, first.marks));
    assert i in first.items && i in RegistryFirst(s, info, o).items;
    MarkedAt(first.items, info, s.marks, i);
    MarkedAt(RegistryFirst(s, info, o).items, info, s.marks, i);
  }

  lemma MarkedAt(items: seq<Id>, info: map<Id, Static>, marks: map<Id, Marks>, i: Id)
    requires i in items
    ensures MarksOf(Marked(items, info, marks), i)
            == if i in marks && i in info && NeedsTier2(info[i], marks[i]) then AddTier2(marks[i])
                else MarksOf(marks, i)
  {
  }

  lemma BothSplit(s: State, info: map<Id, Static>, o: Options)
    requires Unique(s.items) && s.deselected == []
    ensures Splits(s.items, RootFirst(s, info, o))
    ensures Splits(s.items, RegistryFirst(s, info, o))
  {
    RootSplits(s.items, s, info, o);
    RegistrySplits(s.items, RootHook(s, info, o), info);
    RegistrySplits(s.items, s, info);
    RootSplits(s.items, RegistryHook(s, info), info, o);
  }

  lemma Lost(before: seq<Id>, a: State, b: State, i: Id)
    requires Splits(before, a) && Splits(before, b) && a.items == b.items && i in a.deselected
    ensures i in b.deselected
  {
  }

  lemma SameLost(before: seq<Id>, a: State, b: State)
    requires Splits(before, a) && Splits(before, b) && a.items == b.items
    ensures multiset(a.deselected) == multiset(b.deselected)
  {
    forall k | 0 <= k < |a.deselected| ensures a.deselected[k] in b.deselected {
      Lost(before, a, b, a.deselected[k]);
    }
    forall k | 0 <= k < |b.deselected| ensures b.deselected[k] in a.deselected {
      Lost(before, b, a, b.deselected[k]);
    }
    SameMembers(a.deselected, b.deselected);
  }

  /**
   In either order the hooks leave the same list in the same order with the same marks on it, and what the
   two of them report as deselected is exactly what they removed, each item once.
   */
  lemma HooksCommute(s: State, info: map<Id, Static>, o: Options)
    requires Unique(s.items) && s.deselected == []
    ensures RootFirst(s, info, o).items == RegistryFirst(s, info, o).items
    ensures forall i | i in RootFirst(s, info, o).items ::
              MarksOf(RootFirst(s, info, o).marks, i) == MarksOf(RegistryFirst(s, info, o).marks, i)
    ensures Splits(s.items, RootFirst(s, info, o)) && Splits(s.items, RegistryFirst(s, info, o))
    ensures multiset(RootFirst(s, info, o).deselected) == multiset(RegistryFirst(s, info, o).deselected)
  {
    SameList(s, info, o);
    forall i | i in RootFirst(s, info, o).items
      ensures MarksOf(RootFirst(s, info, o).marks, i) == MarksOf(RegistryFirst(s, info, o).marks, i)
    {
      SameMarks(s, info, o, i);
    }
    BothSplit(s, info, o);
    SameLost(s.items, RootFirst(s, info, o), RegistryFirst(s, info, o));
  }
}
