/** Acting on a row of the listing.

    A row is sent back to be acknowledged or escalated.  The controller makes match
    clauses of the row's own cells, and the question is whether the query then
    targets exactly the documents that the row counts. */
module RowActions {
  import opened AlertLifecycle
  import Grouping = AlertGrouping
  import Table = AlertTable
  import opened Values
  import opened Wrappers

  type Name = string

  type Row = Grouping.Row

  // ---------------------------------------------------------------------------
  // Names of fields
  // ---------------------------------------------------------------------------

  function Named(name: Name): Field {
    if name == "event.kind" then EventKind
    else if name == "@timestamp" then Timestamp
    else if name == "event.acknowledged" then Acknowledged
    else if name == "event.escalated" then Escalated
    else if name == "event.hive_id" then HiveId
    else if name == "event.hive_status" then HiveStatus
    else if name == "event.hive_resolution_status" then HiveResolution
    else if name == "event.hive_impact_status" then HiveImpact
    else if name == "signal.status" then SignalStatus
    else if name == "signal.original_event.kind" then OriginalKind
    else Other(name)
  }

  function NameOf(field: Field): Name {
    match field
    case EventKind => "event.kind"
    case Timestamp => "@timestamp"
    case Acknowledged => "event.acknowledged"
    case Escalated => "event.escalated"
    case HiveId => "event.hive_id"
    case HiveStatus => "event.hive_status"
    case HiveResolution => "event.hive_resolution_status"
    case HiveImpact => "event.hive_impact_status"
    case SignalStatus => "signal.status"
    case OriginalKind => "signal.original_event.kind"
    case Other(name) => name
  }

  lemma NameOfNamed(name: Name)
    ensures NameOf(Named(name)) == name
  {
  }

  /** The document as the search engine groups it: one value in each field. */
  ghost function AsDoc(f: Fields): Grouping.Doc {
    map x | x in f && Named(NameOf(x)) == x :: NameOf(x) := {f[x]}
  }

  lemma HasAsDoc(f: Fields, name: Name, v: Value)
    ensures Grouping.Has(AsDoc(f), name, v) <==> Is(f, Named(name), v)
  {
    NameOfNamed(name);
    if Named(name) in f {
      assert NameOf(Named(name)) in AsDoc(f);
    }
  }

  // ---------------------------------------------------------------------------
  // The clauses of a row
  // ---------------------------------------------------------------------------

  const SKIPPED := {"form", "count", "links", "kind"}

  /** A signal's rule goes by its other name again.  Without a rule the lookup
      fails. */
  function Renamed(payload: Row): Option<Row> {
    if "event.kind" in payload && payload["event.kind"] == Text("signal") then
      if "rule.name" in payload
      then Some((payload - {"rule.name"})["signal.rule.name" := payload["rule.name"]])
      else None
    else Some(payload)
  }

  function ClausesOf(payload: Row): set<Clause> {
    set n | n in payload && n !in SKIPPED :: Match(Named(n), payload[n])
  }

  ghost predicate AreClausesOf(clauses: seq<Clause>, row: Row) {
    Renamed(row).Some? && forall c :: c in clauses <==> c in ClausesOf(Renamed(row).value)
  }

  /** One clause for each cell, in whatever order the dictionary has them. */
  method GetAdditionalMatchClauses(payload: Row) returns (clauses: Option<seq<Clause>>)
    ensures clauses.None? <==> Renamed(payload).None?
    ensures clauses.Some? ==> AreClausesOf(clauses.value, payload)
  {
    var row := payload;
    if "event.kind" in row && row["event.kind"] == Text("signal") {
      if "rule.name" !in row {
        return None;
      }
      var name := row["rule.name"];
      row := row - {"rule.name"};
      row := row["signal.rule.name" := name];
    }
    var found: seq<Clause>, todo := [], row.Keys;
    while todo != {}
      invariant todo <= row.Keys
      invariant forall c :: c in found <==>
                  exists n :: n in row && n !in todo && n !in SKIPPED && c == Match(Named(n), row[n])
      decreases todo
    {
      var field :| field in todo;
      ghost var before := found;
      if field !in SKIPPED {
        found := found + [Match(Named(field), row[field])];
      }
      todo := todo - {field};
    }
    return Some(found);
  }

  // ---------------------------------------------------------------------------
  // What the clauses select
  // ---------------------------------------------------------------------------

  /** The fields that a search groups by, when the user asks for these. */
  function SearchFields(fields: seq<Name>, kind: string): seq<Name> {
    if kind == "signal" then Table.SignalFields(fields) else fields
  }

  /** Cells come back under the names of the fields that they were grouped by. */
  predicate NamesComeBack(fs: seq<Name>, kind: string) {
    if kind == "signal" then "signal.rule.name" in fs && "rule.name" !in fs else "signal.rule.name" !in fs
  }

  predicate NoneSkipped(fs: seq<Name>) { forall n | n in fs :: n !in SKIPPED }

  /** Every cell of a row comes back as a clause on the field it was grouped by. */
  predicate CellsComeBack(fs: seq<Name>, kind: string) { NoneSkipped(fs) && NamesComeBack(fs, kind) }

  /** What is put into the request for a row of a group: its keys under the names of
      the fields that it was grouped by. */
  ghost predicate HasCells(payload: Row, fs: seq<Name>, kind: string, keys: seq<Value>) {
    && |keys| == |fs|
    && payload.Keys == (set n | n in fs) + {"count", "event.kind"}
    && (forall i | 0 <= i < |fs| :: payload[fs[i]] == keys[i])
    && payload["event.kind"] == Text(kind)
  }

  lemma AlertCells(row: Row, fs: seq<Name>, docs: seq<Grouping.Doc>, keys: seq<Value>)
    requires Table.ShowsGroup(row, fs, docs, "alert", keys) && row["event.kind"] == Text("alert")
    requires NamesComeBack(fs, "alert")
    ensures Renamed(row) == Some(row) && HasCells(row, fs, "alert", keys)
  {
    assert |"alert"| != |"signal"|;
    assert forall n | n in fs :: Table.Shown(n) == n;
    assert (set n | n in fs :: Table.Shown(n)) == set n | n in fs;
  }

  lemma SignalCells(row: Row, fs: seq<Name>, docs: seq<Grouping.Doc>, keys: seq<Value>)
    requires Table.ShowsGroup(row, fs, docs, "signal", keys) && row["event.kind"] == Text("signal")
    requires NamesComeBack(fs, "signal")
    ensures Renamed(row).Some? && HasCells(Renamed(row).value, fs, "signal", keys)
  {
    Table.NamesDiffer();
    assert Table.Shown("signal.rule.name") in row;
    var payload := Renamed(row).value;
    forall n ensures n in payload <==> n in fs || n == "count" || n == "event.kind" {
      if n in fs && n != "signal.rule.name" {
        assert Table.Shown(n) == n && n in row;
      }
    }
    forall i | 0 <= i < |fs| ensures payload[fs[i]] == keys[i] {
      assert fs[i] in fs && row[Table.Shown(fs[i])] == keys[i];
    }
  }

  /** Over one document: all clauses hold if and only if it has the row's keys. */
  lemma ClausesMatchTuple(f: Fields, payload: Row, cs: seq<Clause>, fs: seq<Name>, kind: string, keys: seq<Value>)
    requires HasCells(payload, fs, kind, keys) && Is(f, EventKind, Text(kind))
    requires forall n | n in fs :: n !in SKIPPED
    requires forall c :: c in cs <==> c in ClausesOf(payload)
    ensures All(f, cs) <==> Grouping.MatchesTuple(AsDoc(f), fs, keys)
  {
    forall i | 0 <= i < |fs|
      ensures Match(Named(fs[i]), keys[i]) in cs
      ensures Grouping.Has(AsDoc(f), fs[i], keys[i]) <==> Is(f, Named(fs[i]), keys[i])
    {
      assert fs[i] in fs && fs[i] in payload;
      HasAsDoc(f, fs[i], keys[i]);
    }
    if Grouping.MatchesTuple(AsDoc(f), fs, keys) {
      forall c | c in cs ensures Holds(f, c) {
        var n :| n in payload && n !in SKIPPED && c == Match(Named(n), payload[n]);
        ClauseOfCell(f, payload, fs, kind, keys, n);
      }
    } else {
      var i :| 0 <= i < |fs| && !Grouping.Has(AsDoc(f), fs[i], keys[i]);
      assert !Holds(f, Match(Named(fs[i]), keys[i]));
    }
  }

  lemma ClauseOfCell(f: Fields, payload: Row, fs: seq<Name>, kind: string, keys: seq<Value>, n: Name)
    requires HasCells(payload, fs, kind, keys) && Is(f, EventKind, Text(kind))
    requires Grouping.MatchesTuple(AsDoc(f), fs, keys) && n in payload && n !in SKIPPED
    ensures Holds(f, Match(Named(n), payload[n]))
  {
    if n in fs {
      var i :| 0 <= i < |fs| && fs[i] == n;
      assert Grouping.Has(AsDoc(f), fs[i], keys[i]);
      HasAsDoc(f, n, keys[i]);
    } else {
      assert n == "event.kind";
    }
  }

  // ---------------------------------------------------------------------------
  // The documents of a row
  // ---------------------------------------------------------------------------

  ghost function DocAt(store: Docs, id: DocId): Grouping.Doc {
    if id in store then AsDoc(store[id].fields) else map[]
  }

  /** The documents of a store, in the order of their ids given here. */
  ghost function DocsOf(store: Docs, ids: seq<DocId>): seq<Grouping.Doc> {
    seq(|ids|, i requires 0 <= i < |ids| => DocAt(store, ids[i]))
  }

  ghost predicate Enumerates(ids: seq<DocId>, found: set<DocId>) {
    && (forall i, j | 0 <= i < j < |ids| :: ids[i] != ids[j])
    && forall id :: id in ids <==> id in found
  }

  /** The documents of the listing that have the keys. */
  ghost function Members(store: Docs, r: Request, fs: seq<Name>, keys: seq<Value>): set<DocId>
    requires |keys| == |fs|
  {
    set id | id in Class(store, r) && HasKeys(store, id, fs, keys)
  }

  /** The row is one of the listing for the request: it shows a group of the
      documents that the search found. */
  ghost predicate IsListed(row: Row, store: Docs, r: Request, ids: seq<DocId>, fs: seq<Name>, keys: seq<Value>) {
    && ValidKind(r.kind) && r.extraMust == [] && r.extraMustNot == []
    && Enumerates(ids, Class(store, r))
    && Table.ShowsGroup(row, fs, DocsOf(store, ids), r.kind, keys)
  }

  /** The request that sends the row back. */
  function SentBack(r: Request, clauses: seq<Clause>): Request { r.(extraMust := clauses) }

  ghost predicate HasKeys(store: Docs, id: DocId, fs: seq<Name>, keys: seq<Value>)
    requires |keys| == |fs| && id in store
  {
    Grouping.MatchesTuple(DocAt(store, id), fs, keys)
  }

  /** Those of the ids whose documents have the keys. */
  ghost function MembersAmong(store: Docs, ids: seq<DocId>, fs: seq<Name>, keys: seq<Value>): set<DocId>
    requires |keys| == |fs| && forall id | id in ids :: id in store
  {
    set id | id in ids && HasKeys(store, id, fs, keys)
  }

  lemma OneMoreMember(store: Docs, first: DocId, rest: seq<DocId>, fs: seq<Name>, keys: seq<Value>)
    requires |keys| == |fs| && first in store && (forall id | id in rest :: id in store) && first !in rest
    ensures |MembersAmong(store, [first] + rest, fs, keys)|
         == |MembersAmong(store, rest, fs, keys)| + if HasKeys(store, first, fs, keys) then 1 else 0
  {
    var others := MembersAmong(store, rest, fs, keys);
    if HasKeys(store, first, fs, keys) {
      assert MembersAmong(store, [first] + rest, fs, keys) == others + {first};
    } else {
      assert MembersAmong(store, [first] + rest, fs, keys) == others;
    }
  }

  lemma DocsOfMore(store: Docs, first: DocId, rest: seq<DocId>)
    ensures DocsOf(store, [first] + rest) == [DocAt(store, first)] + DocsOf(store, rest)
  {
    var docs := DocsOf(store, [first] + rest);
    assert docs[0] == DocAt(store, first);
    forall i | 0 <= i < |rest| ensures docs[i + 1] == DocAt(store, rest[i]) {
      assert ([first] + rest)[i + 1] == rest[i];
    }
  }

  lemma OneMoreDoc(store: Docs, first: DocId, rest: seq<DocId>, fs: seq<Name>, keys: seq<Value>)
    requires |keys| == |fs| && first in store && forall id | id in rest :: id in store
    ensures |Grouping.Group(DocsOf(store, [first] + rest), fs, keys)|
         == |Grouping.Group(DocsOf(store, rest), fs, keys)| + if HasKeys(store, first, fs, keys) then 1 else 0
  {
    DocsOfMore(store, first, rest);
    Grouping.GroupOneMore(DocAt(store, first), DocsOf(store, rest), fs, keys);
  }

  lemma {:induction false} GroupCounts(store: Docs, ids: seq<DocId>, fs: seq<Name>, keys: seq<Value>)
    requires |keys| == |fs| && (forall id | id in ids :: id in store)
    requires forall i, j | 0 <= i < j < |ids| :: ids[i] != ids[j]
    ensures |Grouping.Group(DocsOf(store, ids), fs, keys)| == |MembersAmong(store, ids, fs, keys)|
  {
    if |ids| == 0 {
      assert MembersAmong(store, ids, fs, keys) == {};
    } else {
      GroupCounts(store, ids[1..], fs, keys);
      assert ids == [ids[0]] + ids[1..];
      OneMoreMember(store, ids[0], ids[1..], fs, keys);
      OneMoreDoc(store, ids[0], ids[1..], fs, keys);
    }
  }

  /** The row's count is the number of the documents that have its keys. */
  lemma RowCountsMembers(row: Row, store: Docs, r: Request, ids: seq<DocId>, fs: seq<Name>, keys: seq<Value>)
    requires IsListed(row, store, r, ids, fs, keys)
    ensures row["count"] == Number(|Members(store, r, fs, keys)|) && Members(store, r, fs, keys) != {}
  {
    GroupCounts(store, ids, fs, keys);
    assert Members(store, r, fs, keys) == MembersAmong(store, ids, fs, keys);
  }

  /** The row says of which kind it is. */
  lemma RowHasItsKind(row: Row, store: Docs, r: Request, ids: seq<DocId>, fs: seq<Name>, keys: seq<Value>)
    requires IsListed(row, store, r, ids, fs, keys)
    ensures row["event.kind"] == Text(r.kind)
  {
    if i :| 0 <= i < |fs| && fs[i] == "event.kind" {
      RowCountsMembers(row, store, r, ids, fs, keys);
      var id :| id in Members(store, r, fs, keys);
      assert Grouping.Has(AsDoc(store[id].fields), fs[i], keys[i]);
      HasAsDoc(store[id].fields, "event.kind", keys[i]);
      Table.NamesDiffer();
      assert row[Table.Shown(fs[i])] == keys[i];
    } else {
      assert "event.kind" !in fs;
    }
  }

  lemma RowCells(row: Row, store: Docs, r: Request, ids: seq<DocId>, fs: seq<Name>, keys: seq<Value>)
    requires IsListed(row, store, r, ids, fs, keys) && NamesComeBack(fs, r.kind)
    ensures Renamed(row).Some? && HasCells(Renamed(row).value, fs, r.kind, keys)
  {
    RowHasItsKind(row, store, r, ids, fs, keys);
    if r.kind == "signal" {
      SignalCells(row, fs, DocsOf(store, ids), keys);
    } else {
      AlertCells(row, fs, DocsOf(store, ids), keys);
    }
  }

  lemma MoreClausesSelect(f: Fields, r: Request, cs: seq<Clause>)
    requires r.extraMust == []
    ensures Selects(f, SentBack(r, cs)) <==> Selects(f, r) && All(f, cs)
  {
  }

  /** Sent back with the flags of its listing, the row selects exactly the documents
      that it counts. */
  lemma SentBackSelectsMembers(row: Row, store: Docs, r: Request, ids: seq<DocId>, fs: seq<Name>, keys: seq<Value>,
                               cs: seq<Clause>)
    requires IsListed(row, store, r, ids, fs, keys) && CellsComeBack(fs, r.kind) && AreClausesOf(cs, row)
    ensures Class(store, SentBack(r, cs)) == Members(store, r, fs, keys)
  {
    RowCells(row, store, r, ids, fs, keys);
    forall id | id in store && Selects(store[id].fields, r)
      ensures All(store[id].fields, cs) <==> HasKeys(store, id, fs, keys)
    {
      ClausesMatchTuple(store[id].fields, Renamed(row).value, cs, fs, r.kind, keys);
    }
    forall id | id in store
      ensures Selects(store[id].fields, SentBack(r, cs)) <==> Selects(store[id].fields, r) && All(store[id].fields, cs)
    {
      MoreClausesSelect(store[id].fields, r, cs);
    }
  }

  /** The modify endpoint takes the row if its clauses can be made, and then targets
      exactly the documents that the row counts. */
  ghost predicate RowIsTargeted(row: Row, store: Docs, r: Request, fs: seq<Name>, keys: seq<Value>)
    requires |keys| == |fs|
  {
    && Renamed(row).Some?
    && forall cs | AreClausesOf(cs, row) :: Class(store, ModifyRequest(SentBack(r, cs))) == Members(store, r, fs, keys)
  }

  lemma RowTargetsItsGroup(row: Row, store: Docs, r: Request, ids: seq<DocId>, fs: seq<Name>, keys: seq<Value>)
    requires IsListed(row, store, r, ids, fs, keys) && CellsComeBack(fs, r.kind) && !r.showClosed
    ensures RowIsTargeted(row, store, r, fs, keys) && row["count"] == Number(|Members(store, r, fs, keys)|)
  {
    RowCountsMembers(row, store, r, ids, fs, keys);
    RowCells(row, store, r, ids, fs, keys);
    forall cs | AreClausesOf(cs, row)
      ensures Class(store, ModifyRequest(SentBack(r, cs))) == Members(store, r, fs, keys)
    {
      SentBackSelectsMembers(row, store, r, ids, fs, keys, cs);
      assert ModifyRequest(SentBack(r, cs)) == SentBack(r, cs);
    }
  }

  /** A row of closed documents targets none of them: the endpoint looks among what
      is not closed. */
  lemma ClosedRowMissesItsGroup(row: Row, store: Docs, r: Request, ids: seq<DocId>, fs: seq<Name>, keys: seq<Value>,
                                cs: seq<Clause>)
    requires IsListed(row, store, r, ids, fs, keys) && r.showClosed
    ensures Class(store, ModifyRequest(SentBack(r, cs))) !! Members(store, r, fs, keys)
    ensures Members(store, r, fs, keys) != {}
  {
    RowCountsMembers(row, store, r, ids, fs, keys);
  }

  /** So a modify step for the row rewrites exactly those of its documents that it
      reaches, whether it acknowledges or escalates. */
  lemma ModifyOfRow(row: Row, store: Docs, r: Request, ids: seq<DocId>, fs: seq<Name>, keys: seq<Value>,
                    cs: seq<Clause>, perform: bool, created: Option<CaseId>, reached: set<DocId>)
    requires IsListed(row, store, r, ids, fs, keys) && CellsComeBack(fs, r.kind) && AreClausesOf(cs, row)
    requires !r.showClosed && (perform ==> created.Some? && !r.escalated)
    ensures var after := Step(store, Modify(SentBack(r, cs), perform, created, reached));
            && after.Keys == store.Keys
            && forall id | id in store ::
                 after[id] == if id in Members(store, r, fs, keys) && id in reached
                              then store[id].(fields := Apply(store[id].fields, ModifyScript(r, perform, created)))
                              else store[id]
  {
    SentBackSelectsMembers(row, store, r, ids, fs, keys, cs);
    ModifyRewritesTheClass(store, SentBack(r, cs), perform, created, reached);
    assert ModifyScript(SentBack(r, cs), perform, created) == ModifyScript(r, perform, created);
  }

  // ---------------------------------------------------------------------------
  // Only those rows are targeted
  // ---------------------------------------------------------------------------

  /** A listing whose rows come back: no field is named as one of the cells that are
      skipped; alerts are not grouped by a signal's rule, and signals are grouped by
      their rule. */
  predicate RowsComeBack(fields: seq<Name>, kind: string) {
    && "form" !in fields && "links" !in fields && "kind" !in fields
    && if kind == "signal" then "rule.name" in fields || "signal.rule.name" in fields else "signal.rule.name" !in fields
  }

  lemma NoneSkippedIff(fields: seq<Name>)
    ensures NoneSkipped(fields) <==>
            "form" !in fields && "count" !in fields && "links" !in fields && "kind" !in fields
  {
    assert SKIPPED == {"form", "count", "links", "kind"};
  }

  /** The cells that are skipped have the same names in both searches. */
  lemma SkippedAreKept(fields: seq<Name>, n: Name)
    requires Grouping.DistinctFields(fields) && n in SKIPPED
    ensures n in Table.SignalFields(fields) <==> n in fields
  {
    assert |"form"| == 4 && |"links"| == 5 && |"kind"| == 4 && |"count"| == 5;
    assert |"rule.name"| == 9 && |"signal.rule.name"| == 16;
    Table.SignalFieldsKeep(fields, n);
  }

  lemma RuleInSignalFields(fields: seq<Name>)
    requires Grouping.DistinctFields(fields)
    ensures "rule.name" !in Table.SignalFields(fields)
    ensures "signal.rule.name" in Table.SignalFields(fields) <==> "rule.name" in fields || "signal.rule.name" in fields
  {
    var fs := Table.SignalFields(fields);
    Table.NamesDiffer();
    Table.SignalFieldAt(fields);
    Table.SignalFieldsKeep(fields, "count");
    if "signal.rule.name" in fs {
      var i :| 0 <= i < |fs| && fs[i] == "signal.rule.name";
      assert fields[i] == "rule.name" || fields[i] == "signal.rule.name";
    }
    if i :| 0 <= i < |fields| && (fields[i] == "rule.name" || fields[i] == "signal.rule.name") {
      assert fs[i] == "signal.rule.name";
    }
  }

  lemma SignalRowsComeBackIff(fields: seq<Name>)
    requires Grouping.DistinctFields(fields) && Table.NamesApart(fields) && "count" !in fields
    ensures CellsComeBack(Table.SignalFields(fields), "signal") <==> RowsComeBack(fields, "signal")
  {
    NoneSkippedIff(fields);
    NoneSkippedIff(Table.SignalFields(fields));
    forall n | n in SKIPPED {
      SkippedAreKept(fields, n);
    }
    assert {"form", "count", "links", "kind"} == SKIPPED;
    RuleInSignalFields(fields);
  }

  lemma SearchRowsComeBackIff(fields: seq<Name>, kind: string)
    requires Grouping.DistinctFields(fields) && Table.NamesApart(fields) && ValidKind(kind) && "count" !in fields
    ensures CellsComeBack(SearchFields(fields, kind), kind) <==> RowsComeBack(fields, kind)
    ensures kind == "signal" ==> "rule.name" !in SearchFields(fields, kind)
  {
    NoneSkippedIff(fields);
    if kind == "signal" {
      SignalRowsComeBackIff(fields);
      Table.NamesDiffer();
      Table.SignalFieldsKeep(fields, "count");
    }
  }

  // A document that has the fields, and requests that find it.

  ghost function SomeFields(fs: seq<Name>, kind: string, closed: bool): Fields {
    var f: Fields := map n | n in fs :: Named(n) := Text("x");
    var status := Text(if closed then "closed" else "open");
    var g := f[EventKind := Text(kind)][Timestamp := Number(0)][SignalStatus := status];
    if closed then g[HiveStatus := Text("Resolved")] else g
  }

  ghost function SomeRequest(kind: string, closed: bool): Request {
    Request(kind == "signal" && closed, false, closed, kind, 0, 0, [], [])
  }

  lemma SomeFieldsFound(fs: seq<Name>, kind: string, closed: bool)
    requires ValidKind(kind)
    ensures Selects(SomeFields(fs, kind, closed), SomeRequest(kind, closed))
    ensures forall n | n in fs :: Named(n) in SomeFields(fs, kind, closed)
  {
    assert |"alert"| != |"signal"| && |"open"| != |"closed"| && |"Resolved"| != |"x"| && |"alert"| != |"x"|;
  }

  ghost function KeysOf(f: Fields, fs: seq<Name>): seq<Value>
    requires forall n | n in fs :: Named(n) in f
  {
    seq(|fs|, i requires 0 <= i < |fs| => assert fs[i] in fs; f[Named(fs[i])])
  }

  ghost function IndexOf(kind: string): Index { if kind == "signal" then SignalIndex else Filebeat }

  lemma KeysMatch(f: Fields, fs: seq<Name>)
    requires forall n | n in fs :: Named(n) in f
    ensures Grouping.MatchesTuple(AsDoc(f), fs, KeysOf(f, fs))
  {
    forall i | 0 <= i < |fs| ensures Grouping.Has(AsDoc(f), fs[i], KeysOf(f, fs)[i]) {
      assert fs[i] in fs;
      HasAsDoc(f, fs[i], f[Named(fs[i])]);
    }
  }

  /** Any group has its row. */
  lemma RowOfGroup(docs: seq<Grouping.Doc>, kind: string, fs: seq<Name>, keys: seq<Value>) returns (row: Row)
    requires fs != [] && Grouping.DistinctFields(fs) && "count" !in fs && Table.NamesApart(fs)
    requires |keys| == |fs| && Grouping.Group(docs, fs, keys) != []
    ensures Table.ShowsGroup(row, fs, docs, kind, keys)
  {
    var path := Grouping.Path(keys, |Grouping.Group(docs, fs, keys)|);
    Grouping.RowOfPathIsRowFor(fs, path);
    row := Table.Labelled(Grouping.RowOf(map[], fs, path), kind);
    Table.LabelledShows(Grouping.RowOf(map[], fs, path), fs, docs, kind, keys);
  }

  lemma {:induction false} InSomeOrder(clauses: set<Clause>) returns (cs: seq<Clause>)
    ensures forall c :: c in cs <==> c in clauses
    decreases |clauses|
  {
    if clauses == {} {
      cs := [];
    } else {
      var c :| c in clauses;
      cs := InSomeOrder(clauses - {c});
      cs := cs + [c];
    }
  }

  lemma NoOtherField(fs: seq<Name>, kind: string, closed: bool, name: Name)
    requires name !in fs && Named(name).Other?
    ensures Named(name) !in SomeFields(fs, kind, closed)
  {
    NameOfNamed(name);
    forall n | n in fs ensures Named(n) != Named(name) {
      NameOfNamed(n);
    }
  }

  /** The listing of one document: its one row. */
  lemma OneDocument(fs: seq<Name>, kind: string, closed: bool)
    returns (row: Row, store: Docs, r: Request, keys: seq<Value>)
    requires ValidKind(kind) && fs != [] && Grouping.DistinctFields(fs) && "count" !in fs && Table.NamesApart(fs)
    ensures r.kind == kind && r.showClosed == closed && 0 in store
    ensures IsListed(row, store, r, [0], fs, keys) && Members(store, r, fs, keys) == {0}
    ensures forall name | name !in fs && Named(name).Other? :: Named(name) !in store[0].fields
  {
    var f := SomeFields(fs, kind, closed);
    r := SomeRequest(kind, closed);
    SomeFieldsFound(fs, kind, closed);
    KeysMatch(f, fs);
    store, keys := map[0 := Doc(IndexOf(kind), f)], KeysOf(f, fs);
    OneIsFound(store, r, f, fs, keys);
    row := RowOfGroup(DocsOf(store, [0]), kind, fs, keys);
    forall name | name !in fs && Named(name).Other? {
      NoOtherField(fs, kind, closed, name);
    }
  }

  lemma OneIsFound(store: Docs, r: Request, f: Fields, fs: seq<Name>, keys: seq<Value>)
    requires store == map[0 := Doc(IndexOf(r.kind), f)] && ValidKind(r.kind) && Selects(f, r)
    requires |keys| == |fs| && Grouping.MatchesTuple(AsDoc(f), fs, keys)
    ensures Class(store, r) == {0} && Members(store, r, fs, keys) == {0}
    ensures Grouping.Group(DocsOf(store, [0]), fs, keys) != []
  {
    assert DocsOf(store, [0]) == [AsDoc(f)];
    Grouping.GroupOfOne(AsDoc(f), fs, keys);
  }

  /** Every row of every such listing targets its documents. */
  ghost predicate AllRowsAreTargeted(fs: seq<Name>, kind: string, closed: bool) {
    forall row, store, r, ids, keys |
      IsListed(row, store, r, ids, fs, keys) && r.kind == kind && r.showClosed == closed ::
      RowIsTargeted(row, store, r, fs, keys)
  }

  /** One row that does not. */
  lemma OneRowFails(row: Row, store: Docs, r: Request, ids: seq<DocId>, fs: seq<Name>, keys: seq<Value>)
    requires IsListed(row, store, r, ids, fs, keys) && !RowIsTargeted(row, store, r, fs, keys)
    ensures !AllRowsAreTargeted(fs, r.kind, r.showClosed)
  {
  }

  /** A document that only one of the two sets has. */
  lemma WrongTarget(row: Row, store: Docs, r: Request, fs: seq<Name>, keys: seq<Value>, cs: seq<Clause>, id: DocId)
    requires |keys| == |fs| && AreClausesOf(cs, row)
    requires id in Class(store, ModifyRequest(SentBack(r, cs))) <==> id !in Members(store, r, fs, keys)
    ensures !RowIsTargeted(row, store, r, fs, keys)
  {
  }

  lemma ClosedRowsFail(fs: seq<Name>, kind: string)
    requires ValidKind(kind) && fs != [] && Grouping.DistinctFields(fs) && "count" !in fs && Table.NamesApart(fs)
    ensures !AllRowsAreTargeted(fs, kind, true)
  {
    var row, store, r, keys := OneDocument(fs, kind, true);
    if Renamed(row).Some? {
      var cs := InSomeOrder(ClausesOf(Renamed(row).value));
      ClosedRowMissesItsGroup(row, store, r, [0], fs, keys, cs);
      WrongTarget(row, store, r, fs, keys, cs, 0);
    }
    OneRowFails(row, store, r, [0], fs, keys);
  }

  lemma NoRuleShown(row: Row, fs: seq<Name>, docs: seq<Grouping.Doc>, keys: seq<Value>)
    requires Table.ShowsGroup(row, fs, docs, "signal", keys) && row["event.kind"] == Text("signal")
    requires "rule.name" !in fs && "signal.rule.name" !in fs
    ensures Renamed(row).None?
  {
    Table.NamesDiffer();
    assert forall n | n in fs :: Table.Shown(n) != "rule.name";
  }

  /** A row of signals without a rule cannot be sent back at all. */
  lemma SignalsWithoutRuleFail(fs: seq<Name>)
    requires fs != [] && Grouping.DistinctFields(fs) && "count" !in fs
    requires "rule.name" !in fs && "signal.rule.name" !in fs
    ensures !AllRowsAreTargeted(fs, "signal", false)
  {
    var row, store, r, keys := OneDocument(fs, "signal", false);
    RowHasItsKind(row, store, r, [0], fs, keys);
    NoRuleShown(row, fs, DocsOf(store, [0]), keys);
    OneRowFails(row, store, r, [0], fs, keys);
  }

  lemma RuleClause(row: Row, fs: seq<Name>, docs: seq<Grouping.Doc>, keys: seq<Value>, cs: seq<Clause>)
    requires Table.ShowsGroup(row, fs, docs, "alert", keys) && row["event.kind"] == Text("alert")
    requires "signal.rule.name" in fs && forall c :: c in cs <==> c in ClausesOf(row)
    ensures AreClausesOf(cs, row) && "rule.name" in row && Match(Other("rule.name"), row["rule.name"]) in cs
  {
    assert Table.Shown("signal.rule.name") in row && |"alert"| != |"signal"|;
    Table.NamesDiffer();
    RuleIsOther();
  }

  lemma RuleIsOther()
    ensures Named("rule.name") == Other("rule.name") && "rule.name" !in SKIPPED
  {
  }

  lemma MissedByClause(store: Docs, r: Request, cs: seq<Clause>, c: Clause, id: DocId)
    requires r.extraMust == [] && c in cs && id in store && !Holds(store[id].fields, c)
    ensures id !in Class(store, ModifyRequest(SentBack(r, cs)))
  {
  }

  lemma HitByClauses(store: Docs, r: Request, cs: seq<Clause>, id: DocId)
    requires r.extraMust == [] && !r.showClosed && id in Class(store, r) && All(store[id].fields, cs)
    ensures id in Class(store, ModifyRequest(SentBack(r, cs)))
  {
    MoreClausesSelect(store[id].fields, r, cs);
    assert ModifyRequest(SentBack(r, cs)) == SentBack(r, cs);
  }

  /** An alert's row that was grouped by a signal's rule comes back with a clause on
      another field. */
  lemma AlertsBySignalRuleFail(fs: seq<Name>)
    requires fs != [] && Grouping.DistinctFields(fs) && "count" !in fs && Table.NamesApart(fs)
    requires "signal.rule.name" in fs
    ensures !AllRowsAreTargeted(fs, "alert", false)
  {
    var row, store, r, keys := OneDocument(fs, "alert", false);
    RowHasItsKind(row, store, r, [0], fs, keys);
    var cs := InSomeOrder(ClausesOf(row));
    RuleClause(row, fs, DocsOf(store, [0]), keys, cs);
    RuleIsOther();
    MissedByClause(store, r, cs, Match(Other("rule.name"), row["rule.name"]), 0);
    WrongTarget(row, store, r, fs, keys, cs, 0);
    OneRowFails(row, store, r, [0], fs, keys);
  }

  lemma OtherFieldIsFound(f: Fields, r: Request, g: Name)
    requires Selects(f, r) && r.extraMust == [] && r.extraMustNot == []
    ensures Selects(f[Other(g) := Text("y")], r)
  {
  }

  lemma TwoAreFound(store: Docs, r: Request, f: Fields, f': Fields)
    requires ValidKind(r.kind) && Selects(f, r) && Selects(f', r)
    requires store == map[0 := Doc(IndexOf(r.kind), f), 1 := Doc(IndexOf(r.kind), f')]
    ensures Enumerates([0, 1], Class(store, r))
  {
    assert Class(store, r) == {0, 1};
  }

  lemma FirstHasGroup(store: Docs, first: DocId, rest: seq<DocId>, fs: seq<Name>, keys: seq<Value>)
    requires |keys| == |fs| && first in store && HasKeys(store, first, fs, keys)
    ensures Grouping.Group(DocsOf(store, [first] + rest), fs, keys) != []
  {
    DocsOfMore(store, first, rest);
    Grouping.GroupOneMore(DocAt(store, first), DocsOf(store, rest), fs, keys);
  }

  /** The listing of two documents that differ in one field. */
  lemma TwoDocuments(fs: seq<Name>, kind: string, g: Name)
    returns (row: Row, store: Docs, r: Request, keys: seq<Value>)
    requires ValidKind(kind) && fs != [] && Grouping.DistinctFields(fs) && "count" !in fs && Table.NamesApart(fs)
    requires g in fs && Named(g) == Other(g)
    ensures r.kind == kind && !r.showClosed && 0 in store && 1 in store && 1 in Class(store, r)
    ensures IsListed(row, store, r, [0, 1], fs, keys)
    ensures Grouping.MatchesTuple(AsDoc(store[0].fields), fs, keys) && Is(store[0].fields, EventKind, Text(kind))
    ensures Named(g) in store[0].fields && store[0].fields[Named(g)] != Text("y")
    ensures store[1].fields == store[0].fields[Named(g) := Text("y")]
  {
    SomeFieldsFound(fs, kind, false);
    SomeOther(fs, kind, g);
    row, store, r, keys := TwoOf(fs, kind, g, SomeFields(fs, kind, false), SomeRequest(kind, false));
  }

  lemma SomeOther(fs: seq<Name>, kind: string, g: Name)
    requires g in fs && Named(g) == Other(g)
    ensures Other(g) in SomeFields(fs, kind, false) && SomeFields(fs, kind, false)[Other(g)] == Text("x")
  {
  }

  lemma TwoOf(fs: seq<Name>, kind: string, g: Name, f: Fields, r0: Request)
    returns (row: Row, store: Docs, r: Request, keys: seq<Value>)
    requires ValidKind(kind) && fs != [] && Grouping.DistinctFields(fs) && "count" !in fs && Table.NamesApart(fs)
    requires (forall n | n in fs :: Named(n) in f) && Selects(f, r0) && r0.extraMust == [] && r0.extraMustNot == []
    requires r0.kind == kind && Other(g) in f && f[Other(g)] == Text("x")
    ensures r == r0 && 0 in store && 1 in store && store[0].fields == f && 1 in Class(store, r)
    ensures store[1].fields == f[Other(g) := Text("y")]
    ensures IsListed(row, store, r, [0, 1], fs, keys) && Grouping.MatchesTuple(AsDoc(f), fs, keys)
  {
    r := r0;
    var f' := f[Other(g) := Text("y")];
    store, keys := map[0 := Doc(IndexOf(kind), f), 1 := Doc(IndexOf(kind), f')], KeysOf(f, fs);
    KeysMatch(f, fs);
    OtherFieldIsFound(f, r, g);
    TwoAreFound(store, r, f, f');
    FirstHasGroup(store, 0, [1], fs, keys);
    assert [0] + [1] == [0, 1];
    row := RowOfGroup(DocsOf(store, [0, 1]), kind, fs, keys);
  }

  /** Two documents that differ in a field whose cell is skipped have two rows, and
      each of them targets both. */
  lemma SkippedCellsFail(fs: seq<Name>, kind: string, g: Name)
    requires ValidKind(kind) && fs != [] && Grouping.DistinctFields(fs) && "count" !in fs && Table.NamesApart(fs)
    requires NamesComeBack(fs, kind) && g in fs && g in SKIPPED
    ensures !AllRowsAreTargeted(fs, kind, false)
  {
    assert Named(g) == Other(g);
    var row, store, r, keys := TwoDocuments(fs, kind, g);
    RowCells(row, store, r, [0, 1], fs, keys);
    var cs := InSomeOrder(ClausesOf(Renamed(row).value));
    OtherDocumentToo(store[0].fields, store[1].fields, Renamed(row).value, cs, fs, kind, keys, g);
    HitByClauses(store, r, cs, 1);
    WrongTarget(row, store, r, fs, keys, cs, 1);
    OneRowFails(row, store, r, [0, 1], fs, keys);
  }

  lemma OtherDocumentToo(f: Fields, f': Fields, payload: Row, cs: seq<Clause>, fs: seq<Name>, kind: string,
                         keys: seq<Value>, g: Name)
    requires HasCells(payload, fs, kind, keys) && Is(f, EventKind, Text(kind))
    requires Grouping.MatchesTuple(AsDoc(f), fs, keys) && (forall c :: c in cs <==> c in ClausesOf(payload))
    requires g in fs && g in SKIPPED && f' == f[Named(g) := Text("y")] && f[Named(g)] != Text("y")
    requires Named(g) in f
    ensures All(f', cs) && !Grouping.MatchesTuple(AsDoc(f'), fs, keys)
  {
    forall c | c in cs ensures Holds(f', c) {
      var n :| n in payload && n !in SKIPPED && c == Match(Named(n), payload[n]);
      ClauseOfCell(f, payload, fs, kind, keys, n);
      NameOfNamed(n);
      NameOfNamed(g);
    }
    var i :| 0 <= i < |fs| && fs[i] == g;
    assert Grouping.Has(AsDoc(f), fs[i], keys[i]);
    HasAsDoc(f, g, keys[i]);
    HasAsDoc(f', g, keys[i]);
  }

  /** The rows of all listings by some fields target exactly the documents that they
      count, whatever is in the store, if and only if the listing is not of closed
      documents and its rows come back. */
  lemma RowsAreTargetedIff(fields: seq<Name>, kind: string, closed: bool)
    requires ValidKind(kind) && fields != []
    requires Grouping.DistinctFields(fields) && "count" !in fields && Table.NamesApart(fields)
    ensures AllRowsAreTargeted(SearchFields(fields, kind), kind, closed) <==> !closed && RowsComeBack(fields, kind)
  {
    var fs := SearchFields(fields, kind);
    Table.SignalFieldsDistinctIff(fields);
    SearchRowsComeBackIff(fields, kind);
    if closed {
      ClosedRowsFail(fs, kind);
    } else if CellsComeBack(fs, kind) {
      forall row, store, r, ids, keys |
        IsListed(row, store, r, ids, fs, keys) && r.kind == kind && r.showClosed == closed
        ensures RowIsTargeted(row, store, r, fs, keys)
      {
        RowTargetsItsGroup(row, store, r, ids, fs, keys);
      }
    } else if !NamesComeBack(fs, kind) {
      if kind == "signal" { SignalsWithoutRuleFail(fs); } else { AlertsBySignalRuleFail(fs); }
    } else {
      var g :| g in fs && g in SKIPPED;
      SkippedCellsFail(fs, kind, g);
    }
  }
}
