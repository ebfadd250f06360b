/**
 The logger tree after `setup_logging`: every handler list is rewired to one queue handler, and the
 patched `addHandler` keeps it so for whatever libraries do later.
 */
module Logging {

  /** `Queue` handlers are instances of the repository's queue handler class, `Other` any further handler. */
  datatype Handler = Queue(id: nat) | Other(id: nat)

  datatype Logger = Logger(handlers: seq<Handler>, propagate: bool)

  /** A dotted logger name by its parts; the root is the empty path. */
  type Path = seq<string>

  type Loggers = map<Path, Logger>

  const ROOT: Path := []
  const BASIC: Path := ["basic"]

  // ----- Library behaviour

  /** `Logger.addHandler` as the library defines it. */
  function OriginalAdd(l: Logger, h: Handler): Logger {
    if h in l.handlers then l else l.(handlers := l.handlers + [h])
  }

  /** `logging.getLogger`. */
  function Get(ls: Loggers, p: Path): Loggers {
    if p in ls then ls else ls[p := Logger([], true)]
  }

  /** The loggers a record passes: from its logger up the tree until one does not propagate. */
  function Visited(ls: Loggers, p: Path): seq<Path> {
    if p == ROOT then (if p in ls then [p] else [])
    else if p !in ls then Visited(ls, p[..|p| - 1])
    else [p] + if ls[p].propagate then Visited(ls, p[..|p| - 1]) else []
  }

  /** How often a record is put on the queue: once per queue handler met on the way. */
  function Enqueued(ls: Loggers, path: seq<Path>): nat
    requires forall p | p in path :: p in ls
  {
    if path == [] then 0 else |ls[path[0]].handlers| + Enqueued(ls, path[1..])
  }

  lemma {:induction false} VisitedExist(ls: Loggers, p: Path)
    ensures forall v | v in Visited(ls, p) :: v in ls
  {
    if p != ROOT {
      VisitedExist(ls, p[..|p| - 1]);
    }
  }

  // ----- The duplicate filter of the root logger

  class DuplicateFilter {
    var msgs: set<string>

    constructor ()
      ensures msgs == {}
    {
      msgs := {};
    }

    method Filter(msg: string) returns (pass: bool)
      modifies this
      ensures pass <==> msg !in old(msgs)
      ensures msgs == old(msgs) + {msg}
    {
      pass := msg !in msgs;
      msgs := msgs + {msg};
    }

    /** Over any sequence of records, each message passes exactly at its first occurrence. */
    method FilterAll(records: seq<string>) returns (passed: seq<bool>)
      modifies this
      ensures |passed| == |records|
      ensures forall i | 0 <= i < |records| :: passed[i] <==> records[i] !in old(msgs) && records[i] !in records[..i]
    {
      passed := [];
      for n := 0 to |records|
        invariant |passed| == n && msgs == old(msgs) + set m | m in records[..n]
        invariant forall i | 0 <= i < n :: passed[i] <==> records[i] !in old(msgs) && records[i] !in records[..i]
      {
        var pass := Filter(records[n]);
        passed := passed + [pass];
        assert records[..n + 1] == records[..n] + [records[n]];
      }
    }
  }

  // ----- The repository's code

  /** `_patched`: other handlers are replaced by the queue handler, unless one is there already. */
  function PatchedAdd(l: Logger, h: Handler, q: Handler): Logger {
    if h.Queue? then OriginalAdd(l, h)
    else if exists k :: k in l.handlers && k.Queue? then l
    else OriginalAdd(l, q)
  }

  /** What `setup_logging` makes of the tree. */
  function AfterSetup(ls: Loggers, q: Handler): Loggers {
    map p | p in ls.Keys + {ROOT, BASIC} :: Logger([q], p == ROOT && (ROOT in ls ==> ls[ROOT].propagate))
  }

  lemma SetupReached(ls: Loggers, after: Loggers, q: Handler)
    requires ROOT in ls && ROOT in after && after[ROOT] == Logger([q], ls[ROOT].propagate)
    requires after.Keys == ls.Keys + {BASIC}
    requires forall p | p in after && p != ROOT :: after[p] == Logger([q], false)
    ensures after == AfterSetup(ls, q)
  {
  }

  datatype Op = Create(path: Path) | Add(path: Path, handler: Handler)

  function Apply(ls: Loggers, op: Op, q: Handler): Loggers {
    match op
    case Create(p) => Get(ls, p)
    case Add(p, h) => var got := Get(ls, p); got[p := PatchedAdd(got[p], h, q)]
  }

  function Run(ls: Loggers, ops: seq<Op>, q: Handler): Loggers {
    if ops == [] then ls else Apply(Run(ls, ops[..|ops| - 1], q), ops[|ops| - 1], q)
  }

  /** A record of the root logger against the filters on it, in order, up to the first that knows it. */
  function Filtered(filters: seq<set<string>>, msg: string): (r: (bool, seq<set<string>>))
    ensures |r.1| == |filters|
  {
    if filters == [] then (true, [])
    else if msg in filters[0] then (false, filters)
    else
      var (pass, rest) := Filtered(filters[1..], msg);
      (pass, [filters[0] + {msg}] + rest)
  }

  /** One record: how often it is enqueued, and the filters after it. Only the record's own logger filters it. */
  function Put(ls: Loggers, filters: seq<set<string>>, p: Path, msg: string): (nat, seq<set<string>>) {
    VisitedExist(ls, p);
    var count := Enqueued(ls, Visited(ls, p));
    if p == ROOT then
      var (pass, after) := Filtered(filters, msg);
      (if pass then count else 0, after)
    else (count, filters)
  }

  ghost predicate Distinct(filters: seq<DuplicateFilter>) {
    forall i, j | 0 <= i < j < |filters| :: filters[i] != filters[j]
  }

  /** What each filter has let pass. */
  function Messages(filters: seq<DuplicateFilter>): (r: seq<set<string>>)
    reads filters
    ensures |r| == |filters| && forall i | 0 <= i < |r| :: r[i] == filters[i].msgs
  {
    if filters == [] then [] else [filters[0].msgs] + Messages(filters[1..])
  }

  /** The filters of a logger, asked in order up to the first that rejects. */
  method AskFilters(filters: seq<DuplicateFilter>, msg: string) returns (pass: bool)
    requires Distinct(filters)
    modifies filters
    ensures (pass, Messages(filters)) == Filtered(old(Messages(filters)), msg)
    decreases |filters|
  {
    if filters == [] {
      return true;
    }
    assert forall i | 0 < i < |filters| :: filters[i] != filters[0];
    assert forall i | 0 <= i < |filters[1..]| :: filters[1..][i] == filters[i + 1];
    ghost var was := Messages(filters);
    ghost var rest := Messages(filters[1..]);
    assert was[1..] == rest;
    pass := filters[0].Filter(msg);
    assert Messages(filters[1..]) == rest;
    if pass {
      pass := AskFilters(filters[1..], msg);
      assert filters[0].msgs == was[0] + {msg};
    } else {
      assert filters[0].msgs == was[0];
      assert Messages(filters) == was;
    }
  }

  datatype Event = Do(op: Op) | Record(path: Path, msg: string)

  /** What an event does to the tree: logging takes a logger, which exists from then on. */
  function OpOf(e: Event): Op {
    match e
    case Do(op) => op
    case Record(p, _) => Create(p)
  }

  function OpsOf(events: seq<Event>): (r: seq<Op>)
    ensures |r| == |events|
  {
    seq(|events|, i requires 0 <= i < |events| => OpOf(events[i]))
  }

  function KnownAfter(filters: seq<set<string>>, e: Event): seq<set<string>> {
    if e.Record? && e.path == ROOT then Filtered(filters, e.msg).1 else filters
  }

  /** What a run of events leaves in the filters of the root. */
  function FiltersAfter(filters: seq<set<string>>, events: seq<Event>): seq<set<string>> {
    if events == [] then filters
    else KnownAfter(FiltersAfter(filters, events[..|events| - 1]), events[|events| - 1])
  }

  /** How often the record at a position is enqueued. */
  function CountAt(ls: Loggers, filters: seq<set<string>>, events: seq<Event>, q: Handler, i: nat): nat
    requires i < |events| && events[i].Record?
  {
    var tree := Run(ls, OpsOf(events[..i + 1]), q);
    Put(tree, FiltersAfter(filters, events[..i]), events[i].path, events[i].msg).0
  }

  class LogManager {
    var loggers: Loggers
    var queueHandler: Handler
    var patched: bool
    /** On the root logger, one more with each setup. */
    var filters: seq<DuplicateFilter>

    ghost predicate Valid()
      reads this
    {
      Distinct(filters)
    }

    function Known(): (r: seq<set<string>>)
      reads this, filters
    {
      Messages(filters)
    }

    constructor (loggers: Loggers, queueHandler: Handler)
      ensures this.loggers == loggers && this.queueHandler == queueHandler && !patched && filters == []
    {
      this.loggers := loggers;
      this.queueHandler := queueHandler;
      patched := false;
      filters := [];
    }

    method GetLogger(p: Path)
      modifies this`loggers
      ensures loggers == Get(old(loggers), p)
    {
      if p !in loggers {
        loggers := loggers[p := Logger([], true)];
      }
    }

    method AddHandler(p: Path, h: Handler)
      requires p in loggers
      modifies this`loggers
      ensures loggers == old(loggers)[p := if patched then PatchedAdd(old(loggers)[p], h, queueHandler)
                                           else OriginalAdd(old(loggers)[p], h)]
    {
      var l := loggers[p];
      if !patched || h.Queue? {
        loggers := loggers[p := OriginalAdd(l, h)];
      } else if !exists k :: k in l.handlers && k.Queue? {
        loggers := loggers[p := OriginalAdd(l, queueHandler)];
      }
    }

    method ClearHandlers(p: Path)
      requires p in loggers
      modifies this`loggers
      ensures loggers == old(loggers)[p := old(loggers)[p].(handlers := [])]
    {
      loggers := loggers[p := loggers[p].(handlers := [])];
    }

    /** Makes a logger hand its records to the queue handler alone. */
    method Redirect(p: Path, q: Handler)
      requires p in loggers && q.Queue?
      modifies this`loggers
      ensures loggers == old(loggers)[p := Logger([q], false)]
    {
      ClearHandlers(p);
      AddHandler(p, q);
      assert loggers[p].handlers == [q];
      loggers := loggers[p := loggers[p].(propagate := false)];
      assert loggers == old(loggers)[p := Logger([q], false)];
    }

    /** The loop over the registered loggers; the root is not among them. */
    method RedirectExisting(q: Handler)
      requires ROOT in loggers && q.Queue?
      modifies this`loggers
      ensures loggers.Keys == old(loggers).Keys
      ensures forall p | p in loggers :: loggers[p] == if p == ROOT then old(loggers)[p] else Logger([q], false)
    {
      var todo := loggers.Keys - {ROOT};
      while todo != {}
        invariant todo <= loggers.Keys - {ROOT} && loggers.Keys == old(loggers).Keys
        invariant forall p | p in loggers ::
                    loggers[p] == if p in todo || p == ROOT then old(loggers)[p] else Logger([q], false)
        decreases |todo|
      {
        var p :| p in todo;
        Redirect(p, q);
        todo := todo - {p};
      }
    }

    /** `logging.root.addFilter(DuplicateFilter())`. */
    method AddFilter()
      requires Valid()
      modifies this`filters
      ensures Valid()
      ensures Known() == old(Known()) + [{}]
    {
      ghost var was := Known();
      var filter := new DuplicateFilter();
      filters := filters + [filter];
      assert forall i | 0 <= i < |was| :: Known()[i] == was[i];
      assert Known() == was + [{}];
    }

    /** The loggers in `setup_logging`; it holds for a first and for any later call. */
    method Rewire(q: Handler)
      requires ROOT in loggers && q.Queue?
      modifies this`loggers, this`queueHandler, this`patched
      ensures loggers == AfterSetup(old(loggers), q) && queueHandler == q && patched
    {
      assert |BASIC| == 1 && BASIC != ROOT;
      RedirectExisting(q);
      ClearHandlers(ROOT);
      AddHandler(ROOT, q);
      assert loggers[ROOT] == Logger([q], old(loggers)[ROOT].propagate);
      queueHandler := q;
      patched := true;
      GetLogger(BASIC);
      Redirect(BASIC, q);
      SetupReached(old(loggers), loggers, q);
    }

    /** `setup_logging` with the filter it hangs on the root logger. */
    method Setup(q: Handler)
      requires Valid() && ROOT in loggers && q.Queue?
      modifies this
      ensures Valid() && loggers == AfterSetup(old(loggers), q) && queueHandler == q && patched
      ensures Known() == old(Known()) + [{}]
    {
      Rewire(q);
      AddFilter();
    }

    /** A record logged through a logger, which exists by then: how often it is put on the queue. */
    method Log(p: Path, msg: string) returns (count: nat)
      requires Valid() && ROOT in loggers
      modifies this`loggers, filters
      ensures Valid() && loggers == Get(old(loggers), p)
      ensures (count, Known()) == Put(loggers, old(Known()), p, msg)
    {
      GetLogger(p);
      if p == ROOT {
        var pass := AskFilters(filters, msg);
        if !pass {
          VisitedExist(loggers, p);
          return 0;
        }
      }
      count := CallHandlers(p);
    }

    /** The walk up the tree, one put for every handler on the way. */
    method CallHandlers(p: Path) returns (count: nat)
      requires ROOT in loggers
      ensures (forall v | v in Visited(loggers, p) :: v in loggers) && count == Enqueued(loggers, Visited(loggers, p))
    {
      VisitedExist(loggers, p);
      count := 0;
      var at := p;
      while at != ROOT
        invariant forall v | v in Visited(loggers, at) :: v in loggers
        invariant count + Enqueued(loggers, Visited(loggers, at)) == Enqueued(loggers, Visited(loggers, p))
        decreases |at|
      {
        VisitedExist(loggers, at[..|at| - 1]);
        if at in loggers {
          count := count + |loggers[at].handlers|;
          EnqueuedStep(loggers, at);
          if !loggers[at].propagate {
            return;
          }
        }
        at := at[..|at| - 1];
      }
      EnqueuedStep(loggers, ROOT);
      count := count + |loggers[ROOT].handlers|;
    }

    /** One event, and for a record how often it is enqueued. */
    method Happen(e: Event) returns (count: nat)
      requires Valid() && ROOT in loggers && patched
      modifies this`loggers, filters
      ensures Valid() && ROOT in loggers && loggers == Apply(old(loggers), OpOf(e), queueHandler)
      ensures Known() == KnownAfter(old(Known()), e)
      ensures e.Record? ==> count == Put(loggers, old(Known()), e.path, e.msg).0
    {
      count := 0;
      match e {
        case Do(op) => Perform(op);
        case Record(p, msg) => count := Log(p, msg);
      }
    }

    /** Any later activity and any records in between. */
    method PerformAll(events: seq<Event>) returns (counts: seq<nat>)
      requires Valid() && ROOT in loggers && patched
      modifies this`loggers, filters
      ensures Valid() && Counted(old(loggers), old(Known()), events, queueHandler, counts) && |counts| == |events|
    {
      counts := [];
      ghost var q, tree, known := queueHandler, loggers, Known();
      while |counts| < |events|
        invariant Done(tree, known, events, q, counts)
      {
        counts := PerformNext(events, counts, tree, known, q);
      }
    }

    method PerformNext(events: seq<Event>, counts: seq<nat>, ghost tree: Loggers, ghost known: seq<set<string>>,
                       ghost q: Handler)
      returns (more: seq<nat>)
      requires Done(tree, known, events, q, counts) && |counts| < |events|
      modifies this`loggers, filters
      ensures Done(tree, known, events, q, more) && |more| == |counts| + 1
    {
      EventStep(tree, known, events, q, |counts|);
      var count := Happen(events[|counts|]);
      CountedMore(tree, known, events, q, counts, count);
      more := counts + [count];
    }

    ghost predicate Done(tree: Loggers, known: seq<set<string>>, events: seq<Event>, q: Handler, counts: seq<nat>)
      reads this, filters
    {
      && Valid() && ROOT in loggers && Counted(tree, known, events, q, counts)
      && Reached(tree, known, events[..|counts|], q)
    }

    /** Where a run of events leads. */
    ghost predicate Reached(tree: Loggers, known: seq<set<string>>, events: seq<Event>, q: Handler)
      reads this, filters
    {
      && patched && queueHandler == q
      && loggers == Run(tree, OpsOf(events), q) && Known() == FiltersAfter(known, events)
    }

    /** Later activity of libraries and tests. */
    method Perform(op: Op)
      requires patched
      modifies this`loggers
      ensures loggers == Apply(old(loggers), op, queueHandler)
    {
      GetLogger(op.path);
      if op.Add? {
        AddHandler(op.path, op.handler);
      }
    }
  }

  /** The counts so far are those of the records so far. */
  predicate Counted(ls: Loggers, filters: seq<set<string>>, events: seq<Event>, q: Handler, counts: seq<nat>) {
    && |counts| <= |events|
    && forall i | 0 <= i < |counts| && events[i].Record? :: counts[i] == CountAt(ls, filters, events, q, i)
  }

  lemma CountedMore(ls: Loggers, filters: seq<set<string>>, events: seq<Event>, q: Handler, counts: seq<nat>,
      count: nat)
    requires Counted(ls, filters, events, q, counts) && |counts| < |events|
    requires var n := |counts|;
             events[n].Record? ==>
               count == Put(Run(ls, OpsOf(events[..n + 1]), q), FiltersAfter(filters, events[..n]),
                            events[n].path, events[n].msg).0
    ensures Counted(ls, filters, events, q, counts + [count])
  {
    var more := counts + [count];
    assert events[|counts|].Record? ==> count == CountAt(ls, filters, events, q, |counts|);
    forall i | 0 <= i < |more| && events[i].Record? ensures more[i] == CountAt(ls, filters, events, q, i) {
      if i < |counts| {
        assert more[i] == counts[i];
      }
    }
  }

  lemma EventStep(ls: Loggers, filters: seq<set<string>>, events: seq<Event>, q: Handler, n: nat)
    requires n < |events|
    ensures Run(ls, OpsOf(events[..n + 1]), q) == Apply(Run(ls, OpsOf(events[..n]), q), OpOf(events[n]), q)
    ensures FiltersAfter(filters, events[..n + 1]) == KnownAfter(FiltersAfter(filters, events[..n]), events[n])
  {
    assert events[..n + 1][..n] == events[..n];
    assert OpsOf(events[..n + 1])[..n] == OpsOf(events[..n]);
  }

  lemma EnqueuedStep(ls: Loggers, p: Path)
    requires p in ls && forall v | v in Visited(ls, p) :: v in ls
    ensures p != ROOT && ls[p].propagate ==>
      (forall v | v in Visited(ls, p[..|p| - 1]) :: v in ls)
      && Enqueued(ls, Visited(ls, p)) == |ls[p].handlers| + Enqueued(ls, Visited(ls, p[..|p| - 1]))
    ensures p == ROOT || !ls[p].propagate ==> Enqueued(ls, Visited(ls, p)) == |ls[p].handlers|
  {
    if p != ROOT && ls[p].propagate {
      var rest := Visited(ls, p[..|p| - 1]);
      assert Visited(ls, p)[1..] == rest;
      VisitedExist(ls, p[..|p| - 1]);
    } else {
      assert Visited(ls, p)[1..] == [];
      assert Enqueued(ls, []) == 0;
    }
  }

  // ----- What holds over every later run

  predicate OnlyQueues(ls: Loggers) {
    forall p, h | p in ls && h in ls[p].handlers :: h.Queue?
  }

  /** Every list is empty or holds the one queue handler. */
  predicate Rewired(ls: Loggers, q: Handler) {
    forall p | p in ls :: ls[p].handlers == [] || ls[p].handlers == [q]
  }

  /** Whoever does not propagate has a handler, and so has the root: a walk up the tree ends at one of them. */
  predicate Anchored(ls: Loggers) {
    && ROOT in ls && ls[ROOT].handlers != []
    && forall p | p in ls && !ls[p].propagate :: ls[p].handlers != []
  }

  predicate OnlyOurs(ops: seq<Op>, q: Handler) {
    forall op | op in ops && op.Add? && op.handler.Queue? :: op.handler == q
  }

  /** Other handlers never get in, and no handler ever leaves. */
  lemma {:induction false} RunKeeps(ls: Loggers, ops: seq<Op>, q: Handler)
    requires OnlyQueues(ls) && q.Queue?
    ensures OnlyQueues(Run(ls, ops, q))
    ensures forall p | p in ls :: p in Run(ls, ops, q) && ls[p].handlers <= Run(ls, ops, q)[p].handlers
                                  && Run(ls, ops, q)[p].propagate == ls[p].propagate
    ensures forall p | p in Run(ls, ops, q) && p !in ls :: Run(ls, ops, q)[p].propagate
    decreases |ops|
  {
    if ops != [] {
      RunKeeps(ls, ops[..|ops| - 1], q);
      ApplyKeeps(Run(ls, ops[..|ops| - 1], q), ops[|ops| - 1], q);
    }
  }

  lemma ApplyKeeps(ls: Loggers, op: Op, q: Handler)
    requires OnlyQueues(ls) && q.Queue?
    ensures OnlyQueues(Apply(ls, op, q))
    ensures forall p | p in ls :: p in Apply(ls, op, q) && ls[p].handlers <= Apply(ls, op, q)[p].handlers
                                  && Apply(ls, op, q)[p].propagate == ls[p].propagate
    ensures forall p | p in Apply(ls, op, q) && p !in ls :: Apply(ls, op, q)[p].propagate
  {
  }

  lemma {:induction false} OpLeavesHandler(ls: Loggers, ops: seq<Op>, q: Handler, op: Op)
    requires OnlyQueues(ls) && q.Queue? && op in ops && op.Add? && op.handler.Queue?
    ensures op.path in Run(ls, ops, q) && op.handler in Run(ls, ops, q)[op.path].handlers
    decreases |ops|
  {
    var n := |ops| - 1;
    assert ops == ops[..n] + [ops[n]];
    if ops[n] != op {
      OpLeavesHandler(ls, ops[..n], q, op);
    }
  }

  lemma {:induction false} RunRewired(ls: Loggers, ops: seq<Op>, q: Handler)
    requires Rewired(ls, q) && q.Queue? && OnlyOurs(ops, q)
    ensures Rewired(Run(ls, ops, q), q)
    decreases |ops|
  {
    if ops != [] {
      var n := |ops| - 1;
      assert ops == ops[..n] + [ops[n]];
      RunRewired(ls, ops[..n], q);
    }
  }

  lemma SetupRewires(ls: Loggers, q: Handler)
    requires q.Queue?
    ensures var after := AfterSetup(ls, q); Rewired(after, q) && Anchored(after) && OnlyQueues(after)
  {
  }

  /** After setup, over every run, lists hold queue handlers only; and each holds at most the one queue
      handler exactly when nobody adds a queue handler of their own. */
  lemma RewiredExactly(ls: Loggers, ops: seq<Op>, q: Handler)
    requires q.Queue?
    ensures OnlyQueues(Run(AfterSetup(ls, q), ops, q))
    ensures Rewired(Run(AfterSetup(ls, q), ops, q), q) <==> OnlyOurs(ops, q)
  {
    var start := AfterSetup(ls, q);
    SetupRewires(ls, q);
    RunKeeps(start, ops, q);
    if OnlyOurs(ops, q) {
      RunRewired(start, ops, q);
    } else {
      var op :| op in ops && op.Add? && op.handler.Queue? && op.handler != q;
      OpLeavesHandler(start, ops, q, op);
    }
  }

  // ----- One list

  /** The handler a logger has first: from setup, or from the first call for it. */
  function First(ls: Loggers, ops: seq<Op>, q: Handler, p: Path): Handler {
    if ops == [] then (if p in ls && ls[p].handlers != [] then ls[p].handlers[0] else Other(0))
    else
      var n := |ops| - 1;
      var before := First(ls, ops[..n], q, p);
      if before.Queue? || !ops[n].Add? || ops[n].path != p then before
      else if ops[n].handler.Queue? then ops[n].handler else q
  }

  /** Everybody who adds a queue handler adds the one the logger has first. */
  predicate Agree(ls: Loggers, ops: seq<Op>, q: Handler, p: Path) {
    forall i | 0 <= i < |ops| && ops[i].Add? && ops[i].path == p && ops[i].handler.Queue? ::
      ops[i].handler == First(ls, ops, q, p)
  }

  function HandlersOf(ls: Loggers, p: Path): seq<Handler> {
    if p in ls then ls[p].handlers else []
  }

  lemma {:induction false} ListExactly(ls: Loggers, ops: seq<Op>, q: Handler, p: Path)
    requires OnlyQueues(ls) && q.Queue? && |HandlersOf(ls, p)| <= 1
    ensures var hs := HandlersOf(Run(ls, ops, q), p);
            && (First(ls, ops, q, p).Queue? <==> hs != [])
            && (hs != [] ==> hs[0] == First(ls, ops, q, p))
            && (|hs| <= 1 <==> Agree(ls, ops, q, p))
    decreases |ops|
  {
    if ops == [] {
      assert p in ls && ls[p].handlers != [] ==> ls[p].handlers[0] in ls[p].handlers;
    } else {
      var n := |ops| - 1;
      ListExactly(ls, ops[..n], q, p);
      RunKeeps(ls, ops[..n], q);
      ListStep(ls, ops, q, p);
    }
  }

  lemma ListStep(ls: Loggers, ops: seq<Op>, q: Handler, p: Path)
    requires ops != [] && q.Queue?
    requires var before, hs := ops[..|ops| - 1], HandlersOf(Run(ls, ops[..|ops| - 1], q), p);
             && OnlyQueues(Run(ls, before, q))
             && (First(ls, before, q, p).Queue? <==> hs != [])
             && (hs != [] ==> hs[0] == First(ls, before, q, p))
             && (|hs| <= 1 <==> Agree(ls, before, q, p))
    ensures var hs := HandlersOf(Run(ls, ops, q), p);
            && (First(ls, ops, q, p).Queue? <==> hs != [])
            && (hs != [] ==> hs[0] == First(ls, ops, q, p))
            && (|hs| <= 1 <==> Agree(ls, ops, q, p))
  {
    var n := |ops| - 1;
    var mid := Run(ls, ops[..n], q);
    var hs := HandlersOf(mid, p);
    assert hs != [] ==> hs[0] in mid[p].handlers;
    HandlersStep(mid, ops[n], q, p);
    AgreeStep(ls, ops, q, p);
  }

  /** What one call makes of a list of queue handlers. */
  lemma HandlersStep(ls: Loggers, op: Op, q: Handler, p: Path)
    requires OnlyQueues(ls) && q.Queue?
    ensures var hs, after := HandlersOf(ls, p), HandlersOf(Apply(ls, op, q), p);
            if !op.Add? || op.path != p then after == hs
            else if op.handler.Queue? then after == if op.handler in hs then hs else hs + [op.handler]
            else after == if hs == [] then [q] else hs
  {
    var hs := HandlersOf(ls, p);
    assert hs != [] ==> hs[0] in ls[p].handlers;
  }

  /** The first handler is settled by the first call that brings one; all later ones are measured by it. */
  lemma AgreeStep(ls: Loggers, ops: seq<Op>, q: Handler, p: Path)
    requires ops != [] && q.Queue?
    ensures var before, op := ops[..|ops| - 1], ops[|ops| - 1];
            && (First(ls, before, q, p).Queue? ==> First(ls, ops, q, p) == First(ls, before, q, p))
            && (First(ls, before, q, p).Queue? && op.Add? && op.path == p && op.handler.Queue? ==>
                  (Agree(ls, ops, q, p) <==> Agree(ls, before, q, p) && op.handler == First(ls, before, q, p)))
            && (First(ls, before, q, p).Queue? && !(op.Add? && op.path == p && op.handler.Queue?) ==>
                  (Agree(ls, ops, q, p) <==> Agree(ls, before, q, p)))
            && (!First(ls, before, q, p).Queue? ==> Agree(ls, ops, q, p))
  {
    var n := |ops| - 1;
    assert forall i | 0 <= i < n :: ops[..n][i] == ops[i];
    if !First(ls, ops[..n], q, p).Queue? {
      NoneYet(ls, ops[..n], q, p);
    }
  }

  lemma {:induction false} NoneYet(ls: Loggers, ops: seq<Op>, q: Handler, p: Path)
    requires q.Queue? && !First(ls, ops, q, p).Queue?
    ensures forall i | 0 <= i < |ops| :: !(ops[i].Add? && ops[i].path == p)
    decreases |ops|
  {
    if ops != [] {
      var n := |ops| - 1;
      NoneYet(ls, ops[..n], q, p);
      assert forall i | 0 <= i < n :: ops[..n][i] == ops[i];
    }
  }

  /** Any call that adds something leaves something. */
  lemma {:induction false} AddLeavesOne(ls: Loggers, ops: seq<Op>, q: Handler, p: Path, k: nat)
    requires OnlyQueues(ls) && q.Queue? && k < |ops| && ops[k].Add? && ops[k].path == p
    ensures HandlersOf(Run(ls, ops, q), p) != []
    decreases |ops|
  {
    var n := |ops| - 1;
    RunKeeps(ls, ops[..n], q);
    if k < n {
      AddLeavesOne(ls, ops[..n], q, p, k);
    }
    HandlersStep(Run(ls, ops[..n], q), ops[n], q, p);
  }

  /** A list that setup left empty, or did not know, is empty exactly as long as nobody adds to it. */
  lemma EmptyExactly(ls: Loggers, ops: seq<Op>, q: Handler, p: Path)
    requires OnlyQueues(ls) && q.Queue? && HandlersOf(ls, p) == []
    ensures HandlersOf(Run(ls, ops, q), p) == [] <==> NobodyAdds(ops, p)
  {
    ListExactly(ls, ops, q, p);
    if HandlersOf(Run(ls, ops, q), p) == [] {
      NoneYet(ls, ops, q, p);
    } else if NobodyAdds(ops, p) {
      FirstNeedsAdd(ls, ops, q, p);
    }
    forall k | 0 <= k < |ops| && ops[k].Add? && ops[k].path == p ensures HandlersOf(Run(ls, ops, q), p) != [] {
      AddLeavesOne(ls, ops, q, p, k);
    }
  }

  predicate NobodyAdds(ops: seq<Op>, p: Path) {
    forall k | 0 <= k < |ops| :: !(ops[k].Add? && ops[k].path == p)
  }

  lemma {:induction false} FirstNeedsAdd(ls: Loggers, ops: seq<Op>, q: Handler, p: Path)
    requires NobodyAdds(ops, p)
    ensures First(ls, ops, q, p) == First(ls, [], q, p)
    decreases |ops|
  {
    if ops != [] {
      var n := |ops| - 1;
      assert forall k | 0 <= k < n :: ops[..n][k] == ops[k];
      FirstNeedsAdd(ls, ops[..n], q, p);
    }
  }

  /** The list of a logger setup left with the queue handler holds it alone exactly when nobody adds another. */
  lemma OursExactly(ls: Loggers, ops: seq<Op>, q: Handler, p: Path)
    requires OnlyQueues(ls) && q.Queue? && HandlersOf(ls, p) == [q]
    ensures HandlersOf(Run(ls, ops, q), p) != []
    ensures |HandlersOf(Run(ls, ops, q), p)| == 1 <==> OnlyOursAt(ops, p, q)
  {
    ListExactly(ls, ops, q, p);
    RunKeeps(ls, ops, q);
    assert First(ls, ops, q, p) == q;
  }

  predicate OnlyOursAt(ops: seq<Op>, p: Path, q: Handler) {
    forall k | 0 <= k < |ops| && ops[k].Add? && ops[k].path == p && ops[k].handler.Queue? :: ops[k].handler == q
  }

  // ----- The walk of a record

  /** On an anchored tree a walk always ends at a logger with a handler. */
  lemma {:induction false} WalkEnds(ls: Loggers, p: Path)
    requires Anchored(ls)
    ensures var path := Visited(ls, p);
            path != [] && (forall v | v in path :: v in ls) && ls[path[|path| - 1]].handlers != []
  {
    VisitedExist(ls, p);
    if p != ROOT {
      WalkEnds(ls, p[..|p| - 1]);
    }
  }

  /** One put per handler: at least one, and exactly one when only the last list is not empty and holds one. */
  lemma {:induction false} CountOnPath(ls: Loggers, path: seq<Path>)
    requires path != [] && forall v | v in path :: v in ls
    requires ls[path[|path| - 1]].handlers != []
    ensures Enqueued(ls, path) >= 1
    ensures Enqueued(ls, path) == 1
            <==> |ls[path[|path| - 1]].handlers| == 1 && forall i | 0 <= i < |path| - 1 :: ls[path[i]].handlers == []
    decreases |path|
  {
    var rest := path[1..];
    if rest == [] {
      assert Enqueued(ls, rest) == 0;
    } else {
      assert rest[|rest| - 1] == path[|path| - 1];
      CountOnPath(ls, rest);
      assert forall i | 0 <= i < |rest| :: rest[i] == path[i + 1];
    }
  }

  /** Where a walk from a logger ends: at the nearest logger that was there at setup. */
  function Anchor(ls: Loggers, p: Path): (a: Path)
    ensures a <= p && (a == ROOT || a in ls)
  {
    if p == ROOT || p in ls then p else Anchor(ls, p[..|p| - 1])
  }

  /** Nobody adds to the later loggers on the way, and only the setup's handler to the one it ends at. */
  predicate Lone(ls: Loggers, ops: seq<Op>, q: Handler, p: Path) {
    var a := Anchor(ls, p);
    && (forall k | 0 <= k < |ops| && ops[k].Add? && ops[k].path <= p :: |ops[k].path| <= |a|)
    && OnlyOursAt(ops, a, q)
  }

  lemma LoneStep(ls: Loggers, ops: seq<Op>, q: Handler, p: Path)
    requires p != ROOT && p !in ls
    ensures Lone(ls, ops, q, p) <==> NobodyAdds(ops, p) && Lone(ls, ops, q, p[..|p| - 1])
  {
    var up := p[..|p| - 1];
    assert Anchor(ls, p) == Anchor(ls, up);
    forall k | 0 <= k < |ops| ensures ops[k].path <= p <==> ops[k].path <= up || ops[k].path == p {
      PrefixOfLonger(ops[k].path, p);
    }
  }

  lemma PrefixOfLonger(path: Path, p: Path)
    requires p != []
    ensures path <= p <==> path <= p[..|p| - 1] || path == p
  {
    if path <= p && |path| < |p| {
      assert path == p[..|path|] == p[..|p| - 1][..|path|];
    }
  }

  /** How often a record is put on the queue, filters apart, over any run after setup. */
  lemma {:induction false} WalkCounted(ls: Loggers, ops: seq<Op>, q: Handler, p: Path)
    requires q.Queue?
    ensures var start, after := AfterSetup(ls, q), Run(AfterSetup(ls, q), ops, q);
            && (forall v | v in Visited(after, p) :: v in after)
            && Enqueued(after, Visited(after, p)) >= 1
            && (Enqueued(after, Visited(after, p)) == 1 <==> Lone(start, ops, q, p))
    decreases |p|
  {
    var start := AfterSetup(ls, q);
    var after := Run(start, ops, q);
    SetupRewires(ls, q);
    RunKeeps(start, ops, q);
    VisitedExist(after, p);
    if p in start {
      OursExactly(start, ops, q, p);
      EnqueuedStep(after, p);
    } else {
      WalkCounted(ls, ops, q, p[..|p| - 1]);
      LoneStep(start, ops, q, p);
      EmptyExactly(start, ops, q, p);
      if p in after {
        EnqueuedStep(after, p);
      }
    }
  }

  /**
   Unfiltered, over any run after setup: a record of any logger reaches the queue at least once, and exactly once
   when nobody adds a handler to a later logger on its way, nor another queue handler to the logger it ends at. A
   logger present at setup is on its way alone.
   */
  lemma TreeDelivery(ls: Loggers, ops: seq<Op>, q: Handler, p: Path)
    requires q.Queue?
    ensures var start, after := AfterSetup(ls, q), Run(AfterSetup(ls, q), ops, q);
            var path := Visited(after, p);
            && path != [] && (forall v | v in path :: v in after)
            && Enqueued(after, path) >= 1
            && (Enqueued(after, path) == 1 <==> Lone(start, ops, q, p))
            && (Enqueued(after, path) == 1 <==>
                  |after[path[|path| - 1]].handlers| == 1
                  && forall i | 0 <= i < |path| - 1 :: after[path[i]].handlers == [])
            && (p in start ==> path == [p] && (Lone(start, ops, q, p) <==> OnlyOursAt(ops, p, q)))
  {
    var start := AfterSetup(ls, q);
    var after := Run(start, ops, q);
    WalkCounted(ls, ops, q, p);
    SetupRewires(ls, q);
    RunKeeps(start, ops, q);
    StaysAnchored(ls, ops, q);
    WalkEnds(after, p);
    CountOnPath(after, Visited(after, p));
  }

  lemma StaysAnchored(ls: Loggers, ops: seq<Op>, q: Handler)
    requires q.Queue?
    ensures Anchored(Run(AfterSetup(ls, q), ops, q))
  {
    var start := AfterSetup(ls, q);
    SetupRewires(ls, q);
    RunKeeps(start, ops, q);
    var after := Run(start, ops, q);
    forall p | p in after && (p == ROOT || !after[p].propagate) ensures after[p].handlers != [] {
      assert p in start && start[p].handlers <= after[p].handlers;
    }
  }

  // ----- Records, filtered and delivered

  predicate InSome(filters: seq<set<string>>, msg: string) {
    exists i :: 0 <= i < |filters| && msg in filters[i]
  }

  /** However many filters there are, a message passes exactly when none of them has let it pass before. */
  lemma {:induction false} FilteredExactly(filters: seq<set<string>>, msg: string)
    ensures Filtered(filters, msg).0 <==> !InSome(filters, msg)
    ensures filters != [] ==> forall m :: InSome(Filtered(filters, msg).1, m) <==> InSome(filters, m) || m == msg
    decreases |filters|
  {
    if filters != [] {
      var tail := filters[1..];
      FilteredExactly(tail, msg);
      assert forall m :: InSome(filters, m) <==> m in filters[0] || InSome(tail, m) by {
        forall m ensures InSome(filters, m) <==> m in filters[0] || InSome(tail, m) {
          InSomeSplit(filters, m);
        }
      }
      if msg !in filters[0] {
        var after := Filtered(filters, msg).1;
        assert after[1..] == Filtered(tail, msg).1 && after[0] == filters[0] + {msg};
        forall m ensures InSome(after, m) <==> m in after[0] || InSome(after[1..], m) {
          InSomeSplit(after, m);
        }
        if tail == [] {
          assert Filtered(tail, msg).1 == [];
        }
      }
    }
  }

  lemma InSomeSplit(filters: seq<set<string>>, m: string)
    requires filters != []
    ensures InSome(filters, m) <==> m in filters[0] || InSome(filters[1..], m)
  {
    if m in filters[0] {
      assert InSome(filters, m);
    }
    if InSome(filters[1..], m) {
      var i :| 0 <= i < |filters[1..]| && m in filters[1..][i];
      assert m in filters[i + 1];
    }
    if InSome(filters, m) && m !in filters[0] {
      var i :| 0 <= i < |filters| && m in filters[i];
      assert m in filters[1..][i - 1];
    }
  }

  /** The filters know what they knew before and every message logged on the root since. */
  lemma {:induction false} FiltersKnow(filters: seq<set<string>>, events: seq<Event>, m: string)
    requires filters != []
    ensures FiltersAfter(filters, events) != []
    ensures InSome(FiltersAfter(filters, events), m)
            <==> InSome(filters, m) || exists j :: 0 <= j < |events| && events[j] == Record(ROOT, m)
    decreases |events|
  {
    if events != [] {
      var n := |events| - 1;
      FiltersKnow(filters, events[..n], m);
      assert forall j | 0 <= j < n :: events[..n][j] == events[j];
      KnownAfterExactly(FiltersAfter(filters, events[..n]), events[n], m);
    }
  }

  lemma KnownAfterExactly(filters: seq<set<string>>, e: Event, m: string)
    requires filters != []
    ensures KnownAfter(filters, e) != []
    ensures InSome(KnownAfter(filters, e), m) <==> InSome(filters, m) || e == Record(ROOT, m)
  {
    if e.Record? && e.path == ROOT {
      FilteredExactly(filters, e.msg);
    }
  }

  /** The message was logged on the root before, or before the last setup. */
  predicate Repeated(known: seq<set<string>>, events: seq<Event>, i: nat)
    requires i < |events| && events[i].Record?
  {
    InSome(known, events[i].msg) || exists j :: 0 <= j < i && events[j] == Record(ROOT, events[i].msg)
  }

  /**
   After setup, over every run of events: a record logged on the root whose message was logged there before is not
   enqueued at all; any other record of any logger is enqueued at least once, and exactly once when up to then nobody
   has added a handler to a later logger on its way, nor another queue handler to the logger its way ends at.
   */
  lemma Delivery(ls: Loggers, known: seq<set<string>>, events: seq<Event>, q: Handler, i: nat)
    requires q.Queue? && i < |events| && events[i].Record?
    ensures var start, p := AfterSetup(ls, q), events[i].path;
            var count := CountAt(start, known + [{}], events, q, i);
            if p == ROOT && Repeated(known, events, i) then count == 0
            else count >= 1 && (count == 1 <==> Lone(start, OpsOf(events[..i + 1]), q, p))
  {
    var start, p := AfterSetup(ls, q), events[i].path;
    var ops := OpsOf(events[..i + 1]);
    TreeDelivery(ls, ops, q, p);
    VisitedExist(Run(start, ops, q), p);
    if p == ROOT {
      FiltersKnow(known + [{}], events[..i], events[i].msg);
      FilteredExactly(FiltersAfter(known + [{}], events[..i]), events[i].msg);
      LastKnowsNothing(known, events[i].msg);
      assert forall j | 0 <= j < i :: events[..i][j] == events[j];
    }
  }

  lemma LastKnowsNothing(known: seq<set<string>>, m: string)
    ensures InSome(known + [{}], m) <==> InSome(known, m)
  {
    if InSome(known, m) {
      var i :| 0 <= i < |known| && m in known[i];
      assert (known + [{}])[i] == known[i];
    }
  }

  /** The same line twice on the root, once more on a child: the second is lost, the third is not. */
  lemma RepeatedWitness()
    ensures var events := [Record(ROOT, "x"), Record(ROOT, "x"), Record(["a"], "x")];
            var start, q := map[ROOT := Logger([], true)], Queue(0);
            && CountAt(AfterSetup(start, q), [{}], events, q, 0) == 1
            && CountAt(AfterSetup(start, q), [{}], events, q, 1) == 0
            && CountAt(AfterSetup(start, q), [{}], events, q, 2) >= 1
  {
    var events := [Record(ROOT, "x"), Record(ROOT, "x"), Record(["a"], "x")];
    var start, q := map[ROOT := Logger([], true)], Queue(0);
    var none: seq<set<string>> := [];
    assert none + [{}] == [{}];
    Delivery(start, none, events, q, 0);
    Delivery(start, none, events, q, 1);
    Delivery(start, none, events, q, 2);
    assert events[0] == Record(ROOT, events[1].msg);
  }

  /** A logger present at setup to which a second queue handler is added: its next record is enqueued twice. */
  lemma TwiceWitness()
    ensures var a: Path := ["a"];
            var start, q := map[ROOT := Logger([], true), a := Logger([], true)], Queue(0);
            CountAt(AfterSetup(start, q), [{}], [Do(Add(a, Queue(1))), Record(a, "x")], q, 1) == 2
  {
    var a: Path := ["a"];
    var q, start := Queue(0), AfterSetup(map[ROOT := Logger([], true), a := Logger([], true)], Queue(0));
    var events := [Do(Add(a, Queue(1))), Record(a, "x")];
    EventStep(start, [{}], events, q, 0);
    EventStep(start, [{}], events, q, 1);
    assert events[..0] == [] && events[..2] == events;
    var after := start[a := Logger([q, Queue(1)], false)];
    assert [q] + [Queue(1)] == [q, Queue(1)];
    assert Run(start, OpsOf(events), q) == after;
    assert Visited(after, a) == [a] && [a][1..] == [];
    assert Enqueued(after, []) == 0;
  }

  // ----- Lists of at most one handler

  /**
   After setup, over every run, each list holds at most one handler exactly when whoever adds a queue handler to a
   logger adds the one it has first: the one of setup, or for a later logger what the first call for it brings.
   */
  lemma AtMostOneExactly(ls: Loggers, ops: seq<Op>, q: Handler)
    requires q.Queue?
    ensures (forall p :: |HandlersOf(Run(AfterSetup(ls, q), ops, q), p)| <= 1)
            <==> forall p :: Agree(AfterSetup(ls, q), ops, q, p)
  {
    var start := AfterSetup(ls, q);
    SetupRewires(ls, q);
    forall p ensures |HandlersOf(Run(start, ops, q), p)| <= 1 <==> Agree(start, ops, q, p) {
      ListExactly(start, ops, q, p);
    }
  }

  /** A second queue handler on a later logger makes two; alone on it, it is one, though not that of setup. */
  lemma SecondHandlerWitness()
    ensures var start, q, a: Path := AfterSetup(map[ROOT := Logger([], true)], Queue(0)), Queue(0), ["a"];
            && |HandlersOf(Run(start, [Add(a, Queue(1)), Add(a, q)], q), a)| == 2
            && HandlersOf(Run(start, [Add(a, Queue(1))], q), a) == [Queue(1)]
  {
    var start, q, a: Path := AfterSetup(map[ROOT := Logger([], true)], Queue(0)), Queue(0), ["a"];
    var ops := [Add(a, Queue(1)), Add(a, q)];
    assert a !in start && ops[..1] == [Add(a, Queue(1))] && ops[..1][..0] == [];
    var none: seq<Handler> := [];
    assert none + [Queue(1)] == [Queue(1)];
    assert Run(start, [], q) == start;
    assert Run(start, ops[..1], q) == start[a := Logger([Queue(1)], true)];
  }
}
