/** The question sets of the Llama Stack tests: loading, narrowing, and the search test that loads mode by mode. */
module Datasets {
  import opened Wrappers
  import opened Selection

  datatype Error = BadJson | MissingField(field: string) | UnknownDocuments(ids: set<string>)
      | Escapes(document: string)

  /** A line of the ground-truth file, stripped: empty, no JSON, or an object with text fields. */
  datatype Line = Blank | Malformed | Raw(fields: map<string, string>)

  datatype Record = Record(id: string, question: string, groundTruth: string, mode: string, document: string)

  const FIELDS := ["id", "question", "ground_truth", "retrieval_mode", "document_id"]

  predicate Has(fields: map<string, string>, k: nat)
    requires k < |FIELDS|
  {
    FIELDS[k] in fields
  }

  function Get(fields: map<string, string>, key: string): Option<string> {
    if key in fields then Some(fields[key]) else None
  }

  /** The subscripts of the constructor call, in order. */
  function Build(fields: map<string, string>): Result<Record, Error> {
    if "id" !in fields then Err(MissingField("id"))
    else if "question" !in fields then Err(MissingField("question"))
    else if "ground_truth" !in fields then Err(MissingField("ground_truth"))
    else if "retrieval_mode" !in fields then Err(MissingField("retrieval_mode"))
    else if "document_id" !in fields then Err(MissingField("document_id"))
    else Ok(Record(fields["id"], fields["question"], fields["ground_truth"], fields["retrieval_mode"],
        fields["document_id"]))
  }

  /** What a record is asked for; no mode and no documents ask for nothing. */
  datatype Query = Query(mode: Option<string>, documents: Option<set<string>>)

  predicate Asked(fields: map<string, string>, q: Query) {
    && (q.mode.Some? ==> Get(fields, "retrieval_mode") == q.mode)
    && (q.documents.Some? ==> "document_id" in fields && fields["document_id"] in q.documents.value)
  }

  function Fits(q: Query): Record -> bool {
    (r: Record) => (q.mode.Some? ==> r.mode == q.mode.value) && (q.documents.Some? ==> r.document in q.documents.value)
  }

  function After(sofar: Result<seq<Record>, Error>, line: Line, q: Query): Result<seq<Record>, Error> {
    if sofar.Err? || line.Blank? then sofar
    else if line.Malformed? then Err(BadJson)
    else if !Asked(line.fields, q) then sofar
    else match Build(line.fields)
      case Ok(r) => Ok(sofar.value + [r])
      case Err(e) => Err(e)
  }

  /** The file read line by line; the first line that cannot be used ends the reading. */
  function Loaded(lines: seq<Line>, q: Query): Result<seq<Record>, Error> {
    if lines == [] then Ok([]) else After(Loaded(lines[..|lines| - 1], q), lines[|lines| - 1], q)
  }

  method LoadDocumentQa(lines: seq<Line>, mode: Option<string>, ids: Option<seq<string>>)
      returns (r: Result<seq<Record>, Error>)
    ensures r == Loaded(lines, Query(mode, Members(ids)))
  {
    var allowed: Option<set<string>> := None;
    if ids.Some? {
      allowed := Some(set d | d in ids.value);
    }
    ghost var q := Query(mode, Members(ids));
    var records: seq<Record> := [];
    var n := 0;
    while n < |lines|
      invariant 0 <= n <= |lines|
      invariant Loaded(lines[..n], q) == Ok(records)
    {
      var line := lines[n];
      assert lines[..n + 1][..n] == lines[..n];
      n := n + 1;
      if line.Blank? {
        continue;
      }
      if line.Malformed? {
        LoadFails(lines, n, q);
        return Err(BadJson);
      }
      if mode.Some? && Get(line.fields, "retrieval_mode") != mode {
        continue;
      }
      if allowed.Some? && ("document_id" !in line.fields || line.fields["document_id"] !in allowed.value) {
        continue;
      }
      var record := Build(line.fields);
      if record.Err? {
        LoadFails(lines, n, q);
        return Err(record.error);
      }
      records := records + [record.value];
    }
    assert lines[..n] == lines;
    r := Ok(records);
  }

  function Members(ids: Option<seq<string>>): Option<set<string>> {
    if ids.None? then None else Some(set d | d in ids.value)
  }

  /** A failure stays the result, however the file goes on. */
  lemma {:induction false} LoadFails(lines: seq<Line>, n: nat, q: Query)
    requires n <= |lines| && Loaded(lines[..n], q).Err?
    ensures Loaded(lines, q) == Loaded(lines[..n], q)
    decreases |lines|
  {
    if n == |lines| {
      assert lines[..n] == lines;
    } else {
      assert lines[..|lines| - 1][..n] == lines[..n];
      LoadFails(lines[..|lines| - 1], n, q);
    }
  }

  // ----- Narrowing

  lemma NarrowStep(before: seq<Record>, line: Line, wide: Query, narrow: Query)
    requires line.Raw? && Asked(line.fields, narrow) ==> Asked(line.fields, wide)
    requires After(Ok(before), line, wide).Ok?
    ensures After(Ok(Select(before, Fits(narrow))), line, narrow)
            == Ok(Select(After(Ok(before), line, wide).value, Fits(narrow)))
  {
    if line.Raw? && Asked(line.fields, wide) {
      var r := Build(line.fields).value;
      var more := before + [r];
      assert more[..|more| - 1] == before;
      assert Select(more, Fits(narrow)) == Select(before, Fits(narrow)) + if Fits(narrow)(r) then [r] else [];
      assert After(Ok(before), line, wide) == Ok(more);
      assert Asked(line.fields, narrow) == Fits(narrow)(r);
      var kept: Result<seq<Record>, Error> := Ok(Select(before, Fits(narrow)));
      if Asked(line.fields, narrow) {
        assert After(kept, line, narrow) == Ok(kept.value + [r]);
      } else {
        assert kept.value + [] == kept.value;
      }
    }
  }

  /** Whatever the wider query returns, the narrower one returns the part of it that it asks for. */
  lemma {:induction false} NarrowingIsFiltering(lines: seq<Line>, wide: Query, narrow: Query)
    requires forall f: map<string, string> | Asked(f, narrow) :: Asked(f, wide)
    requires Loaded(lines, wide).Ok?
    ensures Loaded(lines, narrow) == Ok(Select(Loaded(lines, wide).value, Fits(narrow)))
  {
    if lines != [] {
      var n := |lines| - 1;
      NarrowingIsFiltering(lines[..n], wide, narrow);
      NarrowStep(Loaded(lines[..n], wide).value, lines[n], wide, narrow);
    }
  }

  /** Loading succeeds exactly when the file is JSON throughout and what is asked for is complete. */
  lemma {:induction false} LoadsExactly(lines: seq<Line>, q: Query)
    ensures Loaded(lines, q).Ok? <==>
              forall k | 0 <= k < |lines| :: !lines[k].Malformed?
                && (Picked(q)(lines[k]) ==> forall j | 0 <= j < |FIELDS| :: Has(lines[k].fields, j))
    ensures Loaded(lines, q).Ok? ==> forall r | r in Loaded(lines, q).value :: Fits(q)(r)
  {
    if lines != [] {
      var n := |lines| - 1;
      LoadsExactly(lines[..n], q);
      if lines[n].Raw? {
        BuildsExactly(lines[n].fields);
      }
    }
  }

  /** A line the query asks for. */
  function Picked(q: Query): Line -> bool {
    (l: Line) =>
      && l.Raw?
      && (q.mode.Some? ==> "retrieval_mode" in l.fields && l.fields["retrieval_mode"] == q.mode.value)
      && (q.documents.Some? ==> "document_id" in l.fields && l.fields["document_id"] in q.documents.value)
  }

  /** A record holds each field under its own name. */
  predicate Mirrors(r: Record, line: Line) {
    && line.Raw? && "id" in line.fields && "question" in line.fields && "ground_truth" in line.fields
    && "retrieval_mode" in line.fields && "document_id" in line.fields
    && r.id == line.fields["id"] && r.question == line.fields["question"]
    && r.groundTruth == line.fields["ground_truth"] && r.mode == line.fields["retrieval_mode"]
    && r.document == line.fields["document_id"]
  }

  predicate MirrorsAll(rs: seq<Record>, lines: seq<Line>) {
    |rs| == |lines| && forall k | 0 <= k < |rs| :: Mirrors(rs[k], lines[k])
  }

  /** The records are the lines asked for, field by field, in the order of the file. */
  lemma {:induction false} LoadsInOrder(lines: seq<Line>, q: Query)
    requires Loaded(lines, q).Ok?
    ensures MirrorsAll(Loaded(lines, q).value, Select(lines, Picked(q)))
  {
    if lines != [] {
      LoadsInOrder(lines[..|lines| - 1], q);
    }
  }

  /** The first line that cannot be used decides the error: that it is no JSON, or its first missing field. */
  lemma FirstFailure(lines: seq<Line>, n: nat, q: Query)
    requires n < |lines| && Loaded(lines[..n], q).Ok?
    ensures lines[n].Malformed? ==> Loaded(lines, q) == Err(BadJson)
    ensures Picked(q)(lines[n]) ==>
              forall j | 0 <= j < |FIELDS| && !Has(lines[n].fields, j)
                         && (forall i | 0 <= i < j :: Has(lines[n].fields, i)) ::
                Loaded(lines, q) == Err(MissingField(FIELDS[j]))
  {
    assert lines[..n + 1][..n] == lines[..n];
    if Loaded(lines[..n + 1], q).Err? {
      LoadFails(lines, n + 1, q);
    }
    if Picked(q)(lines[n]) {
      BuildFails(lines[n].fields);
    }
  }

  lemma BuildFails(fields: map<string, string>)
    ensures forall j | 0 <= j < |FIELDS| && !Has(fields, j) && (forall i | 0 <= i < j :: Has(fields, i)) ::
              Build(fields) == Err(MissingField(FIELDS[j]))
  {
    assert Has(fields, 0) <==> "id" in fields;
    assert Has(fields, 1) <==> "question" in fields;
    assert Has(fields, 2) <==> "ground_truth" in fields;
    assert Has(fields, 3) <==> "retrieval_mode" in fields;
    assert Has(fields, 4) <==> "document_id" in fields;
  }

  lemma BuildsExactly(fields: map<string, string>)
    ensures Build(fields).Ok? <==> forall j | 0 <= j < |FIELDS| :: Has(fields, j)
  {
    if Build(fields).Err? {
      assert !Has(fields, 0) || !Has(fields, 1) || !Has(fields, 2) || !Has(fields, 3) || !Has(fields, 4);
    }
  }

  // ----- Datasets

  /** A data set by the ids of its documents; its question file is a parameter of loading. */
  datatype Dataset = Dataset(documents: seq<string>)

  function Own(ds: Dataset): set<string> {
    set d | d in ds.documents
  }

  /** `list(own_ids)` has no order to rely on: a set. */
  function EffectiveIds(ds: Dataset, ids: Option<seq<string>>): Option<set<string>> {
    if ids.None? then (if ds.documents != [] then Some(Own(ds)) else None)
    else Some(set d | d in ids.value && d in Own(ds))
  }

  function LoadQa(ds: Dataset, lines: seq<Line>, mode: Option<string>, ids: Option<seq<string>>)
    : Result<seq<Record>, Error>
  {
    Loaded(lines, Query(mode, EffectiveIds(ds, ids)))
  }

  function Sample(document: string): Line {
    Raw(map["id" := "i", "question" := "q", "ground_truth" := "a", "retrieval_mode" := "vector",
        "document_id" := document])
  }

  lemma SampleLoads(document: string, q: Query)
    requires q.mode == None
    ensures Loaded([Sample(document)], q)
            == if q.documents.None? || document in q.documents.value
               then Ok([Record("i", "q", "a", "vector", document)]) else Ok([])
  {
    var lines := [Sample(document)];
    var r := Record("i", "q", "a", "vector", document);
    assert lines[..0] == [];
    assert Loaded(lines[..0], q) == Ok([]);
    assert Build(lines[0].fields) == Ok(r);
    assert [] + [r] == [r];
  }

  ghost predicate OnlyOwn(ds: Dataset, r: Result<seq<Record>, Error>) {
    r.Ok? ==> forall x | x in r.value :: x.document in Own(ds)
  }

  /** No record of another document is ever returned, exactly when the data set has documents or ids are given. */
  lemma OwnDocumentsExactly(ds: Dataset, ids: Option<seq<string>>)
    ensures (forall lines, mode :: OnlyOwn(ds, LoadQa(ds, lines, mode, ids))) <==> ds.documents != [] || ids.Some?
  {
    if ds.documents != [] || ids.Some? {
      forall lines, mode ensures OnlyOwn(ds, LoadQa(ds, lines, mode, ids)) {
        LoadsExactly(lines, Query(mode, EffectiveIds(ds, ids)));
      }
    } else {
      var line := Sample("d");
      SampleLoads("d", Query(None, None));
      assert LoadQa(ds, [line], None, ids) == Ok([Record("i", "q", "a", "vector", "d")]);
      assert Record("i", "q", "a", "vector", "d") in [Record("i", "q", "a", "vector", "d")];
      assert !OnlyOwn(ds, LoadQa(ds, [line], None, ids));
    }
  }

  function OfDocuments(ids: seq<string>): Record -> bool {
    (r: Record) => r.document in ids
  }

  function OfMode(mode: string): Record -> bool {
    (r: Record) => r.mode == mode
  }

  /** Asking for documents is filtering the full result by them, in every mode. */
  lemma ByIdsIsFilter(ds: Dataset, lines: seq<Line>, mode: Option<string>, ids: seq<string>)
    requires ds.documents != []
    requires LoadQa(ds, lines, mode, None).Ok?
    ensures LoadQa(ds, lines, mode, Some(ids)) == Ok(Select(LoadQa(ds, lines, mode, None).value, OfDocuments(ids)))
  {
    var wide, narrow := Query(mode, EffectiveIds(ds, None)), Query(mode, EffectiveIds(ds, Some(ids)));
    NarrowingIsFiltering(lines, wide, narrow);
    var full := Loaded(lines, wide).value;
    LoadsExactly(lines, wide);
    forall k | 0 <= k < |full| ensures Fits(narrow)(full[k]) == OfDocuments(ids)(full[k]) {
      var x := full[k];
      assert x in full;
    }
    SelectSame(full, Fits(narrow), OfDocuments(ids));
  }

  lemma ByModeIsFilter(ds: Dataset, lines: seq<Line>, mode: string)
    requires LoadQa(ds, lines, None, None).Ok?
    ensures LoadQa(ds, lines, Some(mode), None) == Ok(Select(LoadQa(ds, lines, None, None).value, OfMode(mode)))
  {
    var wide, narrow := Query(None, EffectiveIds(ds, None)), Query(Some(mode), EffectiveIds(ds, None));
    NarrowingIsFiltering(lines, wide, narrow);
    var full := Loaded(lines, wide).value;
    LoadsExactly(lines, wide);
    forall k | 0 <= k < |full| ensures Fits(narrow)(full[k]) == OfMode(mode)(full[k]) {
      var x := full[k];
      assert x in full;
    }
    SelectSame(full, Fits(narrow), OfMode(mode));
  }

  // ----- Subsets from one manifest

  datatype Entry = Entry(document: string, inside: bool)

  function Listed(entries: seq<Entry>): set<string> {
    set e | e in entries :: e.document
  }

  predicate Wanted(e: Entry, ids: Option<seq<string>>) {
    ids.None? || e.document in ids.value
  }

  predicate FirstOutside(entries: seq<Entry>, n: nat, ids: Option<seq<string>>, document: string)
    requires n < |entries|
  {
    && Wanted(entries[n], ids) && !entries[n].inside && entries[n].document == document
    && forall k | 0 <= k < n && Wanted(entries[k], ids) :: entries[k].inside
  }

  function WantedBy(ids: Option<seq<string>>): Entry -> bool {
    (e: Entry) => ids.None? || e.document in ids.value
  }

  function Documents(entries: seq<Entry>): (r: seq<string>)
    ensures |r| == |entries| && forall k | 0 <= k < |r| :: r[k] == entries[k].document
  {
    seq(|entries|, k requires 0 <= k < |entries| => entries[k].document)
  }

  method LoadDocuments(entries: seq<Entry>, ids: Option<seq<string>>) returns (r: Result<Dataset, Error>)
    ensures r.Err? && r.error.UnknownDocuments? <==> ids.Some? && exists d :: d in ids.value && d !in Listed(entries)
    ensures r.Err? && r.error.UnknownDocuments? ==>
      forall d :: d in r.error.ids <==> d in ids.value && d !in Listed(entries)
    ensures r.Err? && !r.error.UnknownDocuments? ==>
      r.error.Escapes? && exists n | 0 <= n < |entries| :: FirstOutside(entries, n, ids, r.error.document)
    ensures r.Ok? ==> forall e | e in entries && Wanted(e, ids) :: e.inside
    ensures r.Ok? ==> forall d :: d in Own(r.value) <==> d in Listed(entries) && (ids.None? || d in ids.value)
    ensures r.Ok? && ids.Some? ==> forall d | d in ids.value :: d in Own(r.value)
    ensures r.Ok? ==> r.value.documents == Documents(Select(entries, WantedBy(ids)))
  {
    if ids.Some? {
      var missing := set d | d in ids.value && d !in Listed(entries);
      if missing != {} {
        var d :| d in missing;
        assert d in ids.value && d !in Listed(entries);
        return Err(UnknownDocuments(missing));
      }
      assert forall d | d in ids.value :: d !in missing;
    }
    var documents: seq<string> := [];
    var n := 0;
    while n < |entries|
      invariant 0 <= n <= |entries|
      invariant forall k | 0 <= k < n && Wanted(entries[k], ids) ::
          entries[k].inside && entries[k].document in documents
      invariant forall d | d in documents :: d in Listed(entries) && (ids.None? || d in ids.value)
      invariant documents == Documents(Select(entries[..n], WantedBy(ids)))
    {
      var e := entries[n];
      assert entries[..n + 1][..n] == entries[..n];
      assert e in entries;
      if Wanted(e, ids) {
        if !e.inside {
          assert FirstOutside(entries, n, ids, e.document);
          return Err(Escapes(e.document));
        }
        documents := documents + [e.document];
      }
      n := n + 1;
    }
    assert entries[..n] == entries;
    r := Ok(Dataset(documents));
  }

  ghost predicate SubsetAgrees(all: Dataset, part: Dataset, ids: seq<string>, lines: seq<Line>, mode: Option<string>) {
    LoadQa(all, lines, mode, None).Ok? ==>
      LoadQa(part, lines, mode, None) == Ok(Select(LoadQa(all, lines, mode, None).value, OfDocuments(ids)))
  }

  /**
   A subset shares the question file of the whole: its questions are those of the whole about its documents,
   whatever the file holds, exactly when the subset was given at least one id. Without one it is not empty
   but unrestricted.
   */
  lemma SubsetExactly(all: Dataset, part: Dataset, ids: seq<string>)
    requires Own(part) == (set d | d in ids) && Own(part) <= Own(all)
    ensures (forall lines, mode :: SubsetAgrees(all, part, ids, lines, mode)) <==> ids != []
  {
    if ids != [] {
      assert ids[0] in Own(part) && ids[0] in Own(all);
      forall lines, mode ensures SubsetAgrees(all, part, ids, lines, mode) {
        if LoadQa(all, lines, mode, None).Ok? {
          ByIdsIsFilter(all, lines, mode, ids);
          assert part.documents != [];
          assert Own(part) == set d | d in ids && d in Own(all);
          assert EffectiveIds(part, None) == EffectiveIds(all, Some(ids));
        }
      }
    } else {
      NoDocuments(part);
      EmptySubset(all, part);
    }
  }

  lemma NoDocuments(ds: Dataset)
    ensures Own(ds) == {} <==> ds.documents == []
  {
    if ds.documents != [] {
      assert ds.documents[0] in Own(ds);
    }
  }

  lemma EmptySubset(all: Dataset, part: Dataset)
    requires part.documents == []
    ensures exists lines, mode :: !SubsetAgrees(all, part, [], lines, mode)
  {
    var document := if all.documents == [] then "d" else all.documents[0];
    var lines := [Sample(document)];
    var r := Record("i", "q", "a", "vector", document);
    SampleLoads(document, Query(None, EffectiveIds(all, None)));
    SampleLoads(document, Query(None, EffectiveIds(part, None)));
    assert LoadQa(part, lines, None, None) == Ok([r]);
    assert LoadQa(all, lines, None, None) == Ok([r]);
    NoneSelected(r);
    assert !SubsetAgrees(all, part, [], lines, None);
  }

  lemma NoneSelected(r: Record)
    ensures Select([r], OfDocuments([])) == []
  {
    NothingSelected([r], OfDocuments([]));
  }

  // ----- The search test

  predicate Before(a: string, b: string) {
    if b == "" then false
    else if a == "" then true
    else a[0] < b[0] || (a[0] == b[0] && Before(a[1..], b[1..]))
  }

  lemma {:induction false} BeforeTotal(a: string, b: string)
    ensures Before(a, b) || Before(b, a) || a == b
    ensures !(Before(a, b) && Before(b, a)) && !Before(a, a)
  {
    if a != "" && b != "" {
      BeforeTotal(a[1..], b[1..]);
      assert a == [a[0]] + a[1..] && b == [b[0]] + b[1..];
    }
    if a != "" {
      BeforeTotal(a[1..], a[1..]);
    }
  }

  lemma {:induction false} BeforeTransitive(a: string, b: string, c: string)
    requires Before(a, b) && Before(b, c)
    ensures Before(a, c)
  {
    if a != "" && a[0] == b[0] == c[0] {
      BeforeTransitive(a[1..], b[1..], c[1..]);
    }
  }

  predicate Sorted(s: seq<string>) {
    forall i, j | 0 <= i < j < |s| :: Before(s[i], s[j])
  }

  /** `sorted` over the set of modes: one more mode put in its place. */
  function Insert(x: string, s: seq<string>): (r: seq<string>)
    requires Sorted(s)
    ensures Sorted(r)
    ensures forall m :: m in r <==> m in s || m == x
  {
    if s == [] then [x]
    else if x == s[0] then s
    else if Before(x, s[0]) then
      assert forall j | 0 < j < |s| :: Before(x, s[j]) by {
        forall j | 0 < j < |s| ensures Before(x, s[j]) {
          BeforeTransitive(x, s[0], s[j]);
        }
      }
      [x] + s
    else
      BeforeTotal(x, s[0]);
      var rest := Insert(x, s[1..]);
      assert forall k | 0 <= k < |rest| :: rest[k] in rest;
      assert s == [s[0]] + s[1..];
      [s[0]] + rest
  }

  function Modes(records: seq<Record>): (r: seq<string>)
    ensures Sorted(r)
    ensures forall m :: m in r <==> exists k :: 0 <= k < |records| && records[k].mode == m
  {
    if records == [] then []
    else
      var n := |records| - 1;
      assert forall k | 0 <= k < n :: records[..n][k] == records[k];
      Insert(records[n].mode, Modes(records[..n]))
  }

  /** Every question the search test puts, with each mode loaded anew; FAISS knows the vector mode only. */
  method SearchedRecords(ds: Dataset, lines: seq<Line>, provider: string) returns (r: Result<seq<Record>, Error>)
    ensures r.Err? <==> LoadQa(ds, lines, None, None).Err?
    ensures r.Err? ==> r.error == LoadQa(ds, lines, None, None).error
    ensures r.Ok? && provider != "faiss" ==> multiset(r.value) == multiset(LoadQa(ds, lines, None, None).value)
    ensures r.Ok? && provider == "faiss" ==> r.value == Select(LoadQa(ds, lines, None, None).value, OfMode("vector"))
  {
    var all := LoadQa(ds, lines, None, None);
    if all.Err? {
      return all;
    }
    var records := all.value;
    var modes := Modes(records);
    if provider == "faiss" {
      modes := if "vector" in modes then ["vector"] else [];
    }
    var searched: seq<Record> := [];
    var n := 0;
    while n < |modes|
      invariant 0 <= n <= |modes|
      invariant searched == ByMode(records, modes[..n])
    {
      ByModeIsFilter(ds, lines, modes[n]);
      var some := LoadQa(ds, lines, Some(modes[n]), None);
      searched := searched + some.value;
      assert modes[..n + 1][..n] == modes[..n];
      n := n + 1;
    }
    assert modes[..n] == modes;
    if provider == "faiss" {
      OneMode(records, modes);
    } else {
      EachOnce(records, modes);
    }
    r := Ok(searched);
  }

  function ByMode(records: seq<Record>, modes: seq<string>): seq<Record> {
    if modes == [] then []
    else ByMode(records, modes[..|modes| - 1]) + Select(records, OfMode(modes[|modes| - 1]))
  }

  function OfModes(modes: seq<string>): Record -> bool {
    (r: Record) => r.mode in modes
  }

  lemma OneMode(records: seq<Record>, modes: seq<string>)
    requires modes == if "vector" in Modes(records) then ["vector"] else []
    ensures ByMode(records, modes) == Select(records, OfMode("vector"))
  {
    if modes != [] {
      assert modes[..0] == [] && ByMode(records, []) == [];
    } else {
      assert forall k | 0 <= k < |records| :: records[k].mode in Modes(records);
      NothingSelected(records, OfMode("vector"));
    }
  }

  /** Disjoint selections add up. */
  lemma {:induction false} SelectUnion(records: seq<Record>, p: Record -> bool, q: Record -> bool,
      either: Record -> bool)
    requires forall k | 0 <= k < |records| :: either(records[k]) == (p(records[k]) || q(records[k]))
    requires forall k | 0 <= k < |records| :: !(p(records[k]) && q(records[k]))
    ensures multiset(Select(records, either)) == multiset(Select(records, p)) + multiset(Select(records, q))
  {
    if records != [] {
      SelectUnion(records[..|records| - 1], p, q, either);
    }
  }

  lemma {:induction false} ByModeCollects(records: seq<Record>, modes: seq<string>)
    requires Sorted(modes)
    ensures multiset(ByMode(records, modes)) == multiset(Select(records, OfModes(modes)))
  {
    if modes == [] {
      NothingSelected(records, OfModes(modes));
    } else {
      var n := |modes| - 1;
      ByModeCollects(records, modes[..n]);
      assert modes == modes[..n] + [modes[n]];
      assert modes[n] !in modes[..n] by {
        BeforeTotal(modes[n], modes[n]);
      }
      SelectUnion(records, OfModes(modes[..n]), OfMode(modes[n]), OfModes(modes));
    }
  }

  /** Loading once for each mode that occurs gives every record exactly as often as it occurs. */
  lemma EachOnce(records: seq<Record>, modes: seq<string>)
    requires modes == Modes(records)
    ensures multiset(ByMode(records, modes)) == multiset(records)
  {
    ByModeCollects(records, modes);
    SelectAll(records, OfModes(modes));
  }

  lemma {:induction false} SelectAll(records: seq<Record>, p: Record -> bool)
    requires forall k | 0 <= k < |records| :: p(records[k])
    ensures Select(records, p) == records
  {
    if records != [] {
      SelectAll(records[..|records| - 1], p);
      assert records == records[..|records| - 1] + [records[|records| - 1]];
    }
  }
}
