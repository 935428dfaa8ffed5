/** The table of alerts that the controller answers with.

    The rows of two searches, one for alerts and one for signals, are labelled and
    put into one table, and the table is sorted by the number of documents. */
module AlertTable {
  import opened AlertGrouping
  import StableSort
  import opened Values
  import opened Wrappers

  // ---------------------------------------------------------------------------
  // One table from two searches
  // ---------------------------------------------------------------------------

  /** What the controller does to each row after a search: it fills in the kind if
      the row has none, and gives the signals' rule name its common name. */
  function Labelled(row: Row, kind: string): Row {
    var row' := if "event.kind" in row then row else row["event.kind" := Text(kind)];
    if "signal.rule.name" in row' then (row' - {"signal.rule.name"})["rule.name" := row'["signal.rule.name"]] else row'
  }

  ghost function AllLabelled(rows: seq<Row>, kind: string): seq<Row> {
    seq(|rows|, i requires 0 <= i < |rows| => Labelled(rows[i], kind))
  }

  /** The pass after the second search goes over the rows of the first one again,
      and leaves them as they are. */
  lemma LabelsStick(row: Row, kind: string, kind': string)
    ensures Labelled(Labelled(row, kind), kind') == Labelled(row, kind)
    ensures "event.kind" !in row ==> Labelled(row, kind)["event.kind"] == Text(kind)
    ensures "event.kind" in row ==> Labelled(row, kind)["event.kind"] == row["event.kind"]
    ensures "signal.rule.name" in row ==> Labelled(row, kind)["rule.name"] == row["signal.rule.name"]
  {
    assert |"event.kind"| != |"rule.name"|;
  }

  /** The field list of the search for signals: the first "rule.name" goes by its
      other name there. */
  function SignalFields(fields: seq<Field>): (r: seq<Field>)
    ensures |r| == |fields|
    ensures forall i | 0 <= i < |fields| ::
              r[i] == if fields[i] == "rule.name" && "rule.name" !in fields[..i] then "signal.rule.name" else fields[i]
  {
    if fields == [] then []
    else if fields[0] == "rule.name" then ["signal.rule.name"] + fields[1..]
    else [fields[0]] + SignalFields(fields[1..])
  }

  method LabelRows(table: Table, kind: string)
    requires NoAliases(table.rows)
    modifies set r | r in table.rows
    ensures Contents(table.rows) == AllLabelled(old(Contents(table.rows)), kind)
  {
    for k := 0 to |table.rows|
      invariant forall i | 0 <= i < k :: table.rows[i].cells == Labelled(old(table.rows[i].cells), kind)
      invariant forall i | k <= i < |table.rows| :: table.rows[i].cells == old(table.rows[i].cells)
    {
      var row := table.rows[k];
      if "event.kind" !in row.cells {
        row.cells := row.cells["event.kind" := Text(kind)];
      }
      if "signal.rule.name" in row.cells {
        var name := row.cells["signal.rule.name"];
        row.cells := row.cells - {"signal.rule.name"};
        row.cells := row.cells["rule.name" := name];
      }
    }
  }

  /** The rows of one search are added to the table, and the labelling pass goes
      over all of it. */
  method AddSearch(table: Table, fields: seq<Field>, aggregations: Response, kind: string)
    requires fields != [] && Shaped(fields, aggregations)
    requires NoAliases(table.rows)
    modifies table, set r | r in table.rows
    ensures NoAliases(table.rows) && old(table.rows) <= table.rows
    ensures forall r | r in table.rows :: r in old(table.rows) || fresh(r)
    ensures Contents(table.rows)
         == AllLabelled(old(Contents(table.rows)) + FlatRows(map[], fields, aggregations[fields[0]]), kind)
  {
    ghost var before, was := table.rows, Contents(table.rows);
    ghost var added := GetTableContents(aggregations, fields, table);
    assert Contents(before) == was;
    Concatenated(before, added);
    LabelRows(table, kind);
  }

  lemma AllLabelsStick(rows: seq<Row>, more: seq<Row>, kind: string, kind': string)
    ensures AllLabelled(AllLabelled(rows, kind) + more, kind') == AllLabelled(rows, kind) + AllLabelled(more, kind')
  {
    forall i | 0 <= i < |rows| {
      LabelsStick(rows[i], kind, kind');
    }
  }

  /** The rows of a search that gave this answer, if any. */
  ghost function SearchRows(fields: seq<Field>, answer: Option<Response>): seq<Row>
    requires fields != []
  {
    if answer.Some? && Shaped(fields, answer.value) then FlatRows(map[], fields, answer.value[fields[0]]) else []
  }

  /** The alerts' rows labelled as alerts, then the signals' rows labelled as
      signals. */
  ghost function TableRows(fields: seq<Field>, alerts: Option<Response>, signals: Option<Response>): seq<Row>
    requires fields != []
  {
    AllLabelled(SearchRows(fields, alerts), "alert") + AllLabelled(SearchRows(SignalFields(fields), signals), "signal")
  }

  // ---------------------------------------------------------------------------
  // What the labelled rows show
  // ---------------------------------------------------------------------------

  /** The name that a field has in the table. */
  function Shown(field: Field): Field { if field == "signal.rule.name" then "rule.name" else field }

  /** The two names of a rule would share a cell. */
  predicate NamesApart(fields: seq<Field>) { !("rule.name" in fields && "signal.rule.name" in fields) }

  lemma NamesDiffer()
    ensures "event.kind" != "rule.name" && "rule.name" != "signal.rule.name" && "signal.rule.name" != "event.kind"
    ensures "count" != "event.kind" && "count" != "rule.name" && "count" != "signal.rule.name"
  {
    assert |"event.kind"| == 10 && |"rule.name"| == 9 && |"signal.rule.name"| == 16 && |"count"| == 5;
  }

  /** The row that a group is shown by: its size, its keys under the fields' names,
      and its kind. */
  ghost predicate ShowsGroup(row: Row, fields: seq<Field>, docs: seq<Doc>, kind: string, keys: seq<Value>) {
    && |keys| == |fields| && Group(docs, fields, keys) != []
    && row.Keys == (set f | f in fields :: Shown(f)) + {"count", "event.kind"}
    && row["count"] == Number(|Group(docs, fields, keys)|)
    && (forall i | 0 <= i < |fields| :: row[Shown(fields[i])] == keys[i])
    && ("event.kind" !in fields ==> row["event.kind"] == Text(kind))
  }

  /** One row for each group of the documents, and no other row. */
  ghost predicate ShowsGroupBy(rows: seq<Row>, fields: seq<Field>, docs: seq<Doc>, kind: string) {
    && (forall row | row in rows :: exists keys :: ShowsGroup(row, fields, docs, kind, keys))
    && (forall i, j, keys | 0 <= i < j < |rows| ::
          !(ShowsGroup(rows[i], fields, docs, kind, keys) && ShowsGroup(rows[j], fields, docs, kind, keys)))
    && (Untruncated(fields, docs) ==>
          forall keys: seq<Value> | |keys| == |fields| && Group(docs, fields, keys) != [] ::
            exists row :: row in rows && ShowsGroup(row, fields, docs, kind, keys))
  }

  lemma LabelledKeys(row: Row, fields: seq<Field>, kind: string)
    requires row.Keys == (set f | f in fields) + {"count"} && NamesApart(fields) && "count" !in fields
    ensures Labelled(row, kind).Keys == (set f | f in fields :: Shown(f)) + {"count", "event.kind"}
  {
    NamesDiffer();
    var shown := set f | f in fields :: Shown(f);
    forall f | f in fields ensures Shown(f) in Labelled(row, kind) && f in row {
      assert Shown(f) in shown;
    }
    forall f | f in Labelled(row, kind) ensures f in shown + {"count", "event.kind"} {
      if f in fields && f != "signal.rule.name" {
        assert Shown(f) == f;
      } else if "signal.rule.name" in fields {
        assert Shown("signal.rule.name") in shown;
      }
    }
  }

  lemma LabelledShows(row: Row, fields: seq<Field>, docs: seq<Doc>, kind: string, keys: seq<Value>)
    requires IsRowOfGroup(row, fields, docs, keys) && NamesApart(fields) && "count" !in fields
    ensures ShowsGroup(Labelled(row, kind), fields, docs, kind, keys)
  {
    NamesDiffer();
    LabelledKeys(row, fields, kind);
    forall i | 0 <= i < |fields|
      ensures Labelled(row, kind)[Shown(fields[i])] == keys[i]
    {
      assert fields[i] in fields && row[fields[i]] == keys[i];
    }
  }

  /** A row shows one group only. */
  lemma ShownKeysAgree(row: Row, fields: seq<Field>, docs: seq<Doc>, kind: string, keys: seq<Value>, keys': seq<Value>)
    requires ShowsGroup(row, fields, docs, kind, keys) && ShowsGroup(row, fields, docs, kind, keys')
    ensures keys == keys'
  {
    assert forall i | 0 <= i < |fields| :: keys[i] == row[Shown(fields[i])] == keys'[i];
  }

  lemma NoGroupShownTwice(rows: seq<Row>, fields: seq<Field>, docs: seq<Doc>, kind: string,
                          i: nat, j: nat, keys: seq<Value>)
    requires IsGroupBy(rows, fields, docs) && NamesApart(fields) && "count" !in fields && i < j < |rows|
    ensures !(ShowsGroup(Labelled(rows[i], kind), fields, docs, kind, keys)
              && ShowsGroup(Labelled(rows[j], kind), fields, docs, kind, keys))
  {
    assert rows[i] in rows && rows[j] in rows;
    var a :| IsRowOfGroup(rows[i], fields, docs, a);
    var b :| IsRowOfGroup(rows[j], fields, docs, b);
    LabelledShows(rows[i], fields, docs, kind, a);
    LabelledShows(rows[j], fields, docs, kind, b);
    if ShowsGroup(Labelled(rows[i], kind), fields, docs, kind, keys) {
      ShownKeysAgree(Labelled(rows[i], kind), fields, docs, kind, a, keys);
    }
    if ShowsGroup(Labelled(rows[j], kind), fields, docs, kind, keys) {
      ShownKeysAgree(Labelled(rows[j], kind), fields, docs, kind, b, keys);
    }
  }

  lemma EveryRowShows(rows: seq<Row>, fields: seq<Field>, docs: seq<Doc>, kind: string, k: nat)
    requires IsGroupBy(rows, fields, docs) && NamesApart(fields) && "count" !in fields && k < |rows|
    ensures exists keys :: ShowsGroup(Labelled(rows[k], kind), fields, docs, kind, keys)
  {
    assert rows[k] in rows;
    var keys :| IsRowOfGroup(rows[k], fields, docs, keys);
    LabelledShows(rows[k], fields, docs, kind, keys);
  }

  lemma RowOfEveryGroup(rows: seq<Row>, fields: seq<Field>, docs: seq<Doc>, keys: seq<Value>) returns (k: nat)
    requires HasRowOfEveryGroup(rows, fields, docs)
    requires |keys| == |fields| && Group(docs, fields, keys) != []
    ensures k < |rows| && IsRowOfGroup(rows[k], fields, docs, keys)
  {
    var row :| row in rows && IsRowOfGroup(row, fields, docs, keys);
    k :| 0 <= k < |rows| && rows[k] == row;
  }

  lemma EveryGroupIsShown(rows: seq<Row>, fields: seq<Field>, docs: seq<Doc>, kind: string, keys: seq<Value>)
    returns (k: nat)
    requires HasRowOfEveryGroup(rows, fields, docs) && NamesApart(fields) && "count" !in fields
    requires |keys| == |fields| && Group(docs, fields, keys) != []
    ensures k < |rows| && ShowsGroup(Labelled(rows[k], kind), fields, docs, kind, keys)
  {
    k := RowOfEveryGroup(rows, fields, docs, keys);
    LabelledShows(rows[k], fields, docs, kind, keys);
  }

  /** Labelling the group-by gives the group-by as it is shown. */
  lemma LabelledGroupBy(rows: seq<Row>, fields: seq<Field>, docs: seq<Doc>, kind: string)
    requires IsGroupBy(rows, fields, docs) && NamesApart(fields) && "count" !in fields
    ensures ShowsGroupBy(AllLabelled(rows, kind), fields, docs, kind)
  {
    var all := AllLabelled(rows, kind);
    forall row | row in all
      ensures exists keys :: ShowsGroup(row, fields, docs, kind, keys)
    {
      var k :| 0 <= k < |all| && all[k] == row;
      EveryRowShows(rows, fields, docs, kind, k);
    }
    forall i, j, keys | 0 <= i < j < |all|
      ensures !(ShowsGroup(all[i], fields, docs, kind, keys) && ShowsGroup(all[j], fields, docs, kind, keys))
    {
      NoGroupShownTwice(rows, fields, docs, kind, i, j, keys);
    }
    if Untruncated(fields, docs) {
      forall keys: seq<Value> | |keys| == |fields| && Group(docs, fields, keys) != []
        ensures exists row :: row in all && ShowsGroup(row, fields, docs, kind, keys)
      {
        var k := EveryGroupIsShown(rows, fields, docs, kind, keys);
        assert all[k] in all;
      }
    }
  }

  /** The labelled table of alerts that this answer gives is the group-by. */
  ghost predicate TableShowsGroupBy(fields: seq<Field>, docs: seq<Doc>, resp: Response, kind: string)
    requires fields != []
  {
    ShowsGroupBy(AllLabelled(SearchRows(fields, Some(resp)), kind), fields, docs, kind)
  }

  lemma AnswerShowsGroupBy(fields: seq<Field>, docs: seq<Doc>, resp: Response, kind: string)
    requires fields != [] && (DistinctFields(fields) || SingleValued(docs)) && "count" !in fields && NamesApart(fields)
    requires Answers(fields, docs, resp)
    ensures TableShowsGroupBy(fields, docs, resp, kind)
  {
    AnswersAreShaped(fields, docs, resp);
    DistinctOrSingleIsClear(fields, docs);
    FlatRowsAreGroupBy(fields, docs, resp);
    LabelledGroupBy(FlatRows(map[], fields, resp[fields[0]]), fields, docs, kind);
  }

  lemma SharedCellHidesGroup(fields: seq<Field>, kind: string) returns (docs: seq<Doc>, resp: Response)
    requires fields != [] && !NamesApart(fields)
    ensures Answers(fields, docs, resp) && !TableShowsGroupBy(fields, docs, resp, kind)
  {
    docs := [Plain(fields)];
    resp := AnAnswerExists(fields, docs);
    PlainIsUntruncated(fields, fields);
    var i :| 0 <= i < |fields| && fields[i] == "rule.name";
    var j :| 0 <= j < |fields| && fields[j] == "signal.rule.name";
    NamesDiffer();
    var keys := seq(|fields|, _ => Text("x"))[j := Text("y")];
    GroupOfOne(docs[0], fields, keys);
    assert forall k | 0 <= k < |fields| :: Has(docs[0], fields[k], keys[k]);
    assert MatchesTuple(docs[0], fields, keys);
    forall row ensures !ShowsGroup(row, fields, docs, kind, keys) {
      assert keys[i] == Text("x") && keys[j] == Text("y") && Shown(fields[i]) == Shown(fields[j]);
    }
  }

  /** Labelled, the table of distinct fields none of which is named "count" shows
      the groups of any documents, whatever the answer, if and only if a rule is
      not asked for under both its names. */
  lemma ShownTableIff(fields: seq<Field>, kind: string)
    requires fields != [] && DistinctFields(fields) && "count" !in fields
    ensures (forall docs, resp | Answers(fields, docs, resp) :: TableShowsGroupBy(fields, docs, resp, kind))
       <==> NamesApart(fields)
  {
    if NamesApart(fields) {
      forall docs, resp | Answers(fields, docs, resp)
        ensures TableShowsGroupBy(fields, docs, resp, kind)
      {
        AnswerShowsGroupBy(fields, docs, resp, kind);
      }
    } else {
      var docs, resp := SharedCellHidesGroup(fields, kind);
    }
  }

  lemma SignalFieldAt(fields: seq<Field>)
    requires DistinctFields(fields)
    ensures forall i | 0 <= i < |fields| ::
              SignalFields(fields)[i] == if fields[i] == "rule.name" then "signal.rule.name" else fields[i]
  {
    forall i | 0 <= i < |fields| && fields[i] == "rule.name"
      ensures "rule.name" !in fields[..i]
    {
      assert forall k | 0 <= k < i :: fields[..i][k] == fields[k];
    }
  }

  lemma SignalFieldsStayDistinct(fields: seq<Field>)
    requires DistinctFields(fields) && NamesApart(fields)
    ensures DistinctFields(SignalFields(fields))
  {
    SignalFieldAt(fields);
    var signal := SignalFields(fields);
    forall i, j | 0 <= i < j < |signal| ensures signal[i] != signal[j] {
      assert fields[i] != fields[j] && fields[i] in fields && fields[j] in fields;
    }
  }

  lemma SignalFieldsCollide(fields: seq<Field>)
    requires DistinctFields(fields) && !NamesApart(fields)
    ensures !DistinctFields(SignalFields(fields))
  {
    SignalFieldAt(fields);
    var i :| 0 <= i < |fields| && fields[i] == "rule.name";
    var j :| 0 <= j < |fields| && fields[j] == "signal.rule.name";
    assert SignalFields(fields)[i] == SignalFields(fields)[j];
    NamesDiffer();
    assert i != j;
  }

  lemma SignalFieldsKeep(fields: seq<Field>, name: Field)
    requires DistinctFields(fields) && name != "rule.name" && name != "signal.rule.name"
    ensures name in SignalFields(fields) <==> name in fields
    ensures "rule.name" !in SignalFields(fields)
  {
    NamesDiffer();
    SignalFieldAt(fields);
    if name in fields {
      var i :| 0 <= i < |fields| && fields[i] == name;
      assert SignalFields(fields)[i] == name;
    }
  }

  /** The search for signals asks for one field twice exactly if a rule is asked for
      under both its names. */
  lemma SignalFieldsDistinctIff(fields: seq<Field>)
    requires DistinctFields(fields)
    ensures DistinctFields(SignalFields(fields)) <==> NamesApart(fields)
    ensures "count" in SignalFields(fields) <==> "count" in fields
    ensures NamesApart(SignalFields(fields))
  {
    NamesDiffer();
    if NamesApart(fields) { SignalFieldsStayDistinct(fields); } else { SignalFieldsCollide(fields); }
    SignalFieldsKeep(fields, "count");
  }

  /** So its table is the group-by of any documents under the same condition. */
  lemma SignalTableIff(fields: seq<Field>)
    requires fields != [] && DistinctFields(fields) && "count" !in fields
    ensures (forall docs, resp | Answers(SignalFields(fields), docs, resp) && Shaped(SignalFields(fields), resp) ::
               TableIsGroupBy(SignalFields(fields), docs, resp))
       <==> NamesApart(fields)
  {
    SignalFieldsDistinctIff(fields);
    TableIsGroupByIff(SignalFields(fields));
  }

  // ---------------------------------------------------------------------------
  // The request
  // ---------------------------------------------------------------------------

  /** What the table shows of the documents that the two searches found. */
  ghost predicate ShowsSearches(fields: seq<Field>, alertDocs: seq<Doc>, alerts: Option<Response>,
                                signalDocs: seq<Doc>, signals: Option<Response>)
    requires fields != []
  {
    && (alerts.Some? ==> TableShowsGroupBy(fields, alertDocs, alerts.value, "alert"))
    && (signals.Some? ==> TableShowsGroupBy(SignalFields(fields), signalDocs, signals.value, "signal"))
  }

  lemma SearchesAreShown(fields: seq<Field>, alertDocs: seq<Doc>, alerts: Option<Response>,
                         signalDocs: seq<Doc>, signals: Option<Response>)
    requires fields != [] && DistinctFields(fields) && "count" !in fields && NamesApart(fields)
    requires alerts.Some? ==> Answers(fields, alertDocs, alerts.value)
    requires signals.Some? ==> Answers(SignalFields(fields), signalDocs, signals.value)
    ensures ShowsSearches(fields, alertDocs, alerts, signalDocs, signals)
  {
    if alerts.Some? {
      AnswerShowsGroupBy(fields, alertDocs, alerts.value, "alert");
    }
    if signals.Some? {
      SignalFieldsDistinctIff(fields);
      AnswerShowsGroupBy(SignalFields(fields), signalDocs, signals.value, "signal");
    }
  }

  /** The two searches of a request, given their answers (None when an answer has
      no aggregations). */
  method Tabulate(fields: seq<Field>, ghost alertDocs: seq<Doc>, alerts: Option<Response>,
                  ghost signalDocs: seq<Doc>, signals: Option<Response>)
    returns (table: Table)
    requires fields != []
    requires alerts.Some? ==> Answers(fields, alertDocs, alerts.value)
    requires signals.Some? ==> Answers(SignalFields(fields), signalDocs, signals.value)
    ensures NoAliases(table.rows)
    ensures Contents(table.rows) == TableRows(fields, alerts, signals)
    ensures DistinctFields(fields) && "count" !in fields && NamesApart(fields) ==>
              ShowsSearches(fields, alertDocs, alerts, signalDocs, signals)
  {
    table := new Table();
    ghost var first := SearchRows(fields, alerts);
    if alerts.Some? {
      AnswersAreShaped(fields, alertDocs, alerts.value);
      AddSearch(table, fields, alerts.value, "alert");
      assert [] + first == first;
    }
    if signals.Some? {
      AnswersAreShaped(SignalFields(fields), signalDocs, signals.value);
      AddSearch(table, SignalFields(fields), signals.value, "signal");
      AllLabelsStick(first, SearchRows(SignalFields(fields), signals), "alert", "signal");
    }
    if DistinctFields(fields) && "count" !in fields && NamesApart(fields) {
      SearchesAreShown(fields, alertDocs, alerts, signalDocs, signals);
    }
  }

  function CountOf(row: Row): int {
    if "count" in row && row["count"].Number? then row["count"].n else 0
  }

  /** The order of the listing: rows with more documents come first. */
  predicate MoreDocuments(a: Row, b: Row) { CountOf(a) > CountOf(b) }

  /** Every row says how many documents it stands for. */
  predicate AllCounted(rows: seq<Row>) {
    forall row: Row | row in rows :: "count" in row && row["count"].Number?
  }

  /** No row stands for fewer documents than one that comes after it. */
  predicate LargestFirst(rows: seq<Row>)
    requires AllCounted(rows)
  {
    forall i, j | 0 <= i < j < |rows| :: rows[i]["count"].n >= rows[j]["count"].n
  }

  /** The listing has the rows of the table, by falling number of documents, and
      rows with the same number in the order of the table. */
  lemma ListingIsRanked(rows: seq<Row>, n: int)
    requires AllCounted(rows)
    ensures var listing := StableSort.Sort(MoreDocuments, rows);
            var has := (row: Row) => "count" in row && row["count"] == Number(n);
            && multiset(listing) == multiset(rows)
            && AllCounted(listing) && LargestFirst(listing)
            && StableSort.Those(has, listing, |listing|) == StableSort.Those(has, rows, |rows|)
  {
    StableSort.SortSorts(MoreDocuments, rows);
    StableSort.SortIsStable(MoreDocuments, (row: Row) => "count" in row && row["count"] == Number(n), rows);
    var listing: seq<Row> := StableSort.Sort(MoreDocuments, rows);
    forall row | row in listing ensures row in rows {
      assert row in multiset(listing);
    }
    forall i, j | 0 <= i < j < |listing|
      ensures listing[i]["count"].n >= listing[j]["count"].n
    {
      assert !MoreDocuments(listing[j], listing[i]) && listing[i] in listing && listing[j] in listing;
    }
  }

  predicate IsOfKind(row: Row, kind: string) { "event.kind" in row && row["event.kind"] == Text(kind) }

  /** A row of signals comes before one of alerts only if it stands for more
      documents. */
  predicate AlertsFirst(rows: seq<Row>)
    requires AllCounted(rows)
  {
    forall i, j | 0 <= i < j < |rows| && IsOfKind(rows[i], "signal") && IsOfKind(rows[j], "alert") ::
      rows[i]["count"].n > rows[j]["count"].n
  }

  lemma ShownRows(rows: seq<Row>, fields: seq<Field>, docs: seq<Doc>, kind: string)
    requires ShowsGroupBy(rows, fields, docs, kind)
    ensures AllCounted(rows) && ("event.kind" !in fields ==> forall row | row in rows :: IsOfKind(row, kind))
  {
    forall row: Row | row in rows
      ensures "count" in row && row["count"].Number? && ("event.kind" !in fields ==> IsOfKind(row, kind))
    {
      var keys :| ShowsGroup(row, fields, docs, kind, keys);
    }
  }

  lemma SortedAlertsFirst(alerts: seq<Row>, signals: seq<Row>)
    requires AllCounted(alerts + signals)
    requires forall row | row in alerts :: IsOfKind(row, "alert")
    requires forall row | row in signals :: IsOfKind(row, "signal")
    ensures var listing := StableSort.Sort(MoreDocuments, alerts + signals);
            AllCounted(listing) && AlertsFirst(listing)
  {
    var rows, has := alerts + signals, (row: Row) => IsOfKind(row, "alert");
    var listing: seq<Row> := StableSort.Sort(MoreDocuments, rows);
    ListingIsRanked(rows, 0);
    assert |"alert"| != |"signal"|;
    assert forall i | 0 <= i < |alerts| :: rows[i] in alerts;
    assert forall i | |alerts| <= i < |rows| :: rows[i] in signals;
    StableSort.SortKeepsFirst(MoreDocuments, has, rows, |alerts|, |rows|);
    forall i, j | 0 <= i < j < |listing| && IsOfKind(listing[i], "signal") && IsOfKind(listing[j], "alert")
      ensures listing[i]["count"].n > listing[j]["count"].n
    {
      assert !has(listing[i]) && has(listing[j]) && listing[i] in listing && listing[j] in listing;
      assert MoreDocuments(listing[i], listing[j]);
    }
  }

  /** The table of a proper request: its rows are counted, so the listing is by falling
      counts, and of equal rows those of alerts come first. */
  lemma ProperListing(fields: seq<Field>, alertDocs: seq<Doc>, alerts: Option<Response>,
                      signalDocs: seq<Doc>, signals: Option<Response>)
    requires fields != [] && DistinctFields(fields)
    requires alerts.Some? ==> Answers(fields, alertDocs, alerts.value)
    requires signals.Some? ==> Answers(SignalFields(fields), signalDocs, signals.value)
    requires ShowsSearches(fields, alertDocs, alerts, signalDocs, signals)
    ensures var listing := StableSort.Sort(MoreDocuments, TableRows(fields, alerts, signals));
            AllCounted(listing) && LargestFirst(listing) && ("event.kind" !in fields ==> AlertsFirst(listing))
  {
    var a, b := SearchRows(fields, alerts), SearchRows(SignalFields(fields), signals);
    if alerts.Some? {
      ShownRows(AllLabelled(a, "alert"), fields, alertDocs, "alert");
    }
    if signals.Some? {
      NamesDiffer();
      SignalFieldsKeep(fields, "event.kind");
      ShownRows(AllLabelled(b, "signal"), SignalFields(fields), signalDocs, "signal");
    }
    ListingIsRanked(TableRows(fields, alerts, signals), 0);
    if "event.kind" !in fields {
      SortedAlertsFirst(AllLabelled(a, "alert"), AllLabelled(b, "signal"));
    }
  }

  /** The whole request: the listing is the table of the two searches, sorted. */
  method ListAlerts(fields: seq<Field>, ghost alertDocs: seq<Doc>, alerts: Option<Response>,
                    ghost signalDocs: seq<Doc>, signals: Option<Response>)
    returns (listing: seq<Row>)
    requires fields != []
    requires alerts.Some? ==> Answers(fields, alertDocs, alerts.value)
    requires signals.Some? ==> Answers(SignalFields(fields), signalDocs, signals.value)
    ensures multiset(listing) == multiset(TableRows(fields, alerts, signals))
    ensures listing == StableSort.Sort(MoreDocuments, TableRows(fields, alerts, signals))
    ensures AllCounted(TableRows(fields, alerts, signals)) ==> AllCounted(listing) && LargestFirst(listing)
    ensures DistinctFields(fields) && "count" !in fields && NamesApart(fields) ==>
              && ShowsSearches(fields, alertDocs, alerts, signalDocs, signals)
              && AllCounted(listing) && LargestFirst(listing) && ("event.kind" !in fields ==> AlertsFirst(listing))
  {
    var table := Tabulate(fields, alertDocs, alerts, signalDocs, signals);
    listing := StableSort.Sort(MoreDocuments, Contents(table.rows));
    StableSort.SortSorts(MoreDocuments, Contents(table.rows));
    if AllCounted(Contents(table.rows)) {
      ListingIsRanked(Contents(table.rows), 0);
    }
    if DistinctFields(fields) && "count" !in fields && NamesApart(fields) {
      ProperListing(fields, alertDocs, alerts, signalDocs, signals);
    }
  }
}
