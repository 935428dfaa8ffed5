/** Grouping alerts by a list of fields.

    The controller asks Elasticsearch for nested "terms" aggregations, one level
    per field, and flattens the tree of buckets it gets back into table rows.
    The request is a chain of dictionaries extended in place, and the rows are
    dictionaries that the recursion mutates, copies and appends; both live on
    the heap here.  What the search engine may answer is a relation, so the
    results hold for every bucket order and also when a level is cut at its
    size limit. */
module AlertGrouping {
  import opened Values
  import opened Wrappers

  type Field = string

  /** A document gives each of its fields a set of values: a field may be absent
      and may hold several values. */
  type Doc = map<Field, set<Value>>

  /** One row of the table: "count" and one cell per grouping field. */
  type Row = map<Field, Value>

  const BUCKET_LIMIT := 100

  // ---------------------------------------------------------------------------
  // The request
  // ---------------------------------------------------------------------------

  datatype Terms = Terms(field: Field, size: nat)

  /** One dictionary of the request: the terms clause it may hold and the value
      of its "aggs" key, if it has one. */
  class AggNode {
    var terms: Option<Terms>
    var aggs: Option<map<Field, AggNode>>

    constructor (terms: Option<Terms>)
      ensures this.terms == terms && this.aggs == None
    {
      this.terms, this.aggs := terms, None;
    }
  }

  /** Level k offers exactly one aggregation, named fields[k], that groups by
      fields[k]. */
  ghost predicate IsLevel(nodes: seq<AggNode>, fields: seq<Field>, k: nat)
    requires k < |fields| && k + 1 < |nodes|
    reads nodes
  {
    && nodes[k].aggs == Some(map[fields[k] := nodes[k + 1]])
    && nodes[k + 1].terms == Some(Terms(fields[k], BUCKET_LIMIT))
  }

  /** The nodes form one chain with one level per field; the last node offers no
      aggregation. */
  ghost predicate IsChain(nodes: seq<AggNode>, fields: seq<Field>)
    reads nodes
  {
    && |nodes| == |fields| + 1
    && (forall k: nat | k < |fields| :: nodes[|fields|] != nodes[k])
    && (forall k: nat | k < |fields| :: IsLevel(nodes, fields, k))
    && nodes[|fields|].aggs == None
  }

  /** Follows the named levels down from aggs; None is the KeyError of a lookup
      that fails. */
  method GetAggsNested(aggs: AggNode, fields: seq<Field>, ghost nodes: seq<AggNode>, ghost all: seq<Field>)
    returns (r: Option<AggNode>)
    requires IsChain(nodes, all) && nodes[0] == aggs
    ensures r == if fields <= all then Some(nodes[|fields|]) else None
  {
    var ref := aggs;
    for i := 0 to |fields|
      invariant i <= |all| && fields[..i] == all[..i]
      invariant ref == nodes[i]
    {
      assert i < |all| ==> IsLevel(nodes, all, i);
      if ref.aggs.None? || fields[i] !in ref.aggs.value {
        assert !(fields <= all);
        return None;
      }
      assert fields[i] == all[i];
      ref := ref.aggs.value[fields[i]];
    }
    return Some(ref);
  }

  /** The assignment of one iteration: hangs a fresh level for the field under
      the last node of the chain, which extends the chain by that level. */
  method Extend(ref: AggNode, field: Field, ghost nodes: seq<AggNode>, ghost fields: seq<Field>)
    returns (level: AggNode)
    requires IsChain(nodes, fields) && nodes[|fields|] == ref
    modifies ref
    ensures fresh(level) && IsChain(nodes + [level], fields + [field])
  {
    level := new AggNode(Some(Terms(field, BUCKET_LIMIT)));
    ref.aggs := Some(map[field := level]);
    ghost var nodes', fields' := nodes + [level], fields + [field];
    forall k: nat | k < |fields'|
      ensures IsLevel(nodes', fields', k)
    {
      if k < |fields| {
        assert old(IsLevel(nodes, fields, k));
      }
    }
  }

  /** Builds the request.  No lookup on the way fails, whatever the field list
      (repeated fields included), and what is built is one chain. */
  method ConstructAggs(fields: seq<Field>) returns (r: Option<AggNode>, ghost nodes: seq<AggNode>)
    ensures r.Some? && IsChain(nodes, fields) && nodes[0] == r.value
    ensures fresh(nodes)
  {
    var aggs := new AggNode(None);
    nodes := [aggs];
    for index := 0 to |fields|
      invariant IsChain(nodes, fields[..index]) && nodes[0] == aggs
      invariant fresh(nodes)
    {
      var ref := aggs;
      if index != 0 {
        var found := GetAggsNested(aggs, fields[0..index], nodes, fields[..index]);
        if found.None? {
          return None, nodes;
        }
        ref := found.value;
      }
      var level := Extend(ref, fields[index], nodes, fields[..index]);
      nodes := nodes + [level];
      assert fields[..index] + [fields[index]] == fields[..index + 1];
    }
    assert fields[..|fields|] == fields;
    return Some(aggs), nodes;
  }

  // ---------------------------------------------------------------------------
  // What the search engine answers
  // ---------------------------------------------------------------------------

  datatype Bucket = Bucket(key: Value, docCount: nat, sub: Response)

  /** The buckets of each aggregation that was asked for, by its name. */
  type Response = map<Field, seq<Bucket>>

  ghost predicate Has(doc: Doc, field: Field, v: Value) {
    field in doc && v in doc[field]
  }

  /** The values a field takes in the documents. */
  ghost function Occurring(docs: seq<Doc>, field: Field): set<Value> {
    set d, v | d in docs && field in d && v in d[field] :: v
  }

  /** The documents that hold a value in a field, in order. */
  ghost function With(docs: seq<Doc>, field: Field, v: Value): seq<Doc> {
    if docs == [] then []
    else (if Has(docs[0], field, v) then [docs[0]] else []) + With(docs[1..], field, v)
  }

  /** The answer to one terms clause: buckets in any order, with distinct keys
      among the occurring values, each counting the documents it stands for, and
      as many buckets as there are values unless the size limit cuts them. */
  ghost predicate AnswersTerms(terms: Terms, docs: seq<Doc>, buckets: seq<Bucket>) {
    && (forall i, j :: 0 <= i < j < |buckets| ==> buckets[i].key != buckets[j].key)
    && (forall b | b in buckets ::
          b.key in Occurring(docs, terms.field) && b.docCount == |With(docs, terms.field, b.key)|)
    && |buckets| == if |Occurring(docs, terms.field)| <= terms.size then |Occurring(docs, terms.field)| else terms.size
  }

  /** resp answers the request that starts at nodes[k], over the given documents:
      one entry for each aggregation named there, and below every bucket the
      answer to the next level over the bucket's own documents. */
  ghost predicate AnswersRequest(nodes: seq<AggNode>, k: nat, docs: seq<Doc>, resp: Response)
    requires k < |nodes|
    reads nodes
    decreases |nodes| - k
  {
    match nodes[k].aggs
    case None => resp == map[]
    case Some(named) =>
      && resp.Keys == named.Keys
      && forall name | name in named ::
           && k + 1 < |nodes| && named[name] == nodes[k + 1]
           && nodes[k + 1].terms.Some?
           && AnswersTerms(nodes[k + 1].terms.value, docs, resp[name])
           && forall b | b in resp[name] ::
                AnswersRequest(nodes, k + 1, With(docs, nodes[k + 1].terms.value.field, b.key), b.sub)
  }

  /** The same for a plain list of fields. */
  ghost predicate Answers(fields: seq<Field>, docs: seq<Doc>, resp: Response)
    decreases |fields|
  {
    if fields == [] then resp == map[]
    else
      && resp.Keys == {fields[0]}
      && AnswersTerms(Terms(fields[0], BUCKET_LIMIT), docs, resp[fields[0]])
      && forall b | b in resp[fields[0]] :: Answers(fields[1..], With(docs, fields[0], b.key), b.sub)
  }

  /** The chain that ConstructAggs builds asks for exactly the grouping by its
      fields: an answer to the one is an answer to the other. */
  lemma {:induction false} ChainAsksForFields(nodes: seq<AggNode>, fields: seq<Field>, k: nat, docs: seq<Doc>,
                                              resp: Response)
    requires IsChain(nodes, fields) && k <= |fields|
    ensures AnswersRequest(nodes, k, docs, resp) <==> Answers(fields[k..], docs, resp)
    decreases |fields| - k
  {
    if k < |fields| {
      assert IsLevel(nodes, fields, k);
      var field := fields[k];
      assert fields[k..][0] == field && fields[k..][1..] == fields[k + 1..];
      if field in resp {
        forall b | b in resp[field]
          ensures AnswersRequest(nodes, k + 1, With(docs, field, b.key), b.sub)
             <==> Answers(fields[k + 1..], With(docs, field, b.key), b.sub)
        {
          ChainAsksForFields(nodes, fields, k + 1, With(docs, field, b.key), b.sub);
        }
      }
      assert field in nodes[k].aggs.value;
      assert nodes[k].aggs.value.Keys == {field};
    }
  }

  /** No level of the grouping has more values than a bucket list may hold. */
  ghost predicate Untruncated(fields: seq<Field>, docs: seq<Doc>)
    decreases |fields|
  {
    fields == [] ||
    (&& |Occurring(docs, fields[0])| <= 100
     && forall v | v in Occurring(docs, fields[0]) :: Untruncated(fields[1..], With(docs, fields[0], v)))
  }

  // ---------------------------------------------------------------------------
  // The flat group-by
  // ---------------------------------------------------------------------------

  ghost predicate MatchesTuple(doc: Doc, fields: seq<Field>, keys: seq<Value>)
    requires |keys| == |fields|
  {
    forall i | 0 <= i < |fields| :: Has(doc, fields[i], keys[i])
  }

  /** The documents with the given value in each of the fields. */
  ghost function Group(docs: seq<Doc>, fields: seq<Field>, keys: seq<Value>): seq<Doc>
    requires |keys| == |fields|
  {
    if docs == [] then []
    else (if MatchesTuple(docs[0], fields, keys) then [docs[0]] else []) + Group(docs[1..], fields, keys)
  }

  lemma {:induction false} GroupStep(docs: seq<Doc>, fields: seq<Field>, keys: seq<Value>)
    requires |keys| == |fields| > 0
    ensures Group(With(docs, fields[0], keys[0]), fields[1..], keys[1..]) == Group(docs, fields, keys)
  {
    if docs != [] {
      GroupStep(docs[1..], fields, keys);
      var d := docs[0];
      var rest := With(docs[1..], fields[0], keys[0]);
      assert MatchesTuple(d, fields, keys)
          <==> Has(d, fields[0], keys[0]) && MatchesTuple(d, fields[1..], keys[1..]) by {
        if Has(d, fields[0], keys[0]) && MatchesTuple(d, fields[1..], keys[1..]) {
          forall i | 0 <= i < |fields| ensures Has(d, fields[i], keys[i]) {
            assert i > 0 ==> fields[i] == fields[1..][i - 1] && keys[i] == keys[1..][i - 1];
          }
        }
      }
      if Has(d, fields[0], keys[0]) {
        assert ([d] + rest)[1..] == rest;
      } else {
        assert [] + rest == rest;
      }
    }
  }

  lemma GroupOneMore(doc: Doc, rest: seq<Doc>, fields: seq<Field>, keys: seq<Value>)
    requires |keys| == |fields|
    ensures |Group([doc] + rest, fields, keys)|
         == |Group(rest, fields, keys)| + if MatchesTuple(doc, fields, keys) then 1 else 0
  {
    assert ([doc] + rest)[1..] == rest;
  }

  lemma {:induction false} GroupOfNothing(docs: seq<Doc>)
    ensures Group(docs, [], []) == docs
  {
    if docs != [] {
      GroupOfNothing(docs[1..]);
    }
  }

  lemma GroupByOneField(docs: seq<Doc>, fields: seq<Field>, keys: seq<Value>)
    requires |keys| == |fields| == 1
    ensures Group(docs, fields, keys) == With(docs, fields[0], keys[0])
  {
    GroupStep(docs, fields, keys);
    assert fields[1..] == [] && keys[1..] == [];
    GroupOfNothing(With(docs, fields[0], keys[0]));
  }

  lemma {:induction false} OccurringIffWith(docs: seq<Doc>, field: Field, v: Value)
    ensures v in Occurring(docs, field) <==> With(docs, field, v) != []
  {
    if docs != [] {
      OccurringIffWith(docs[1..], field, v);
      assert docs == [docs[0]] + docs[1..];
    }
  }

  // ---------------------------------------------------------------------------
  // The paths of a bucket tree
  // ---------------------------------------------------------------------------

  /** A root-to-leaf path: the keys passed on the way and the last bucket's count. */
  datatype Path = Path(keys: seq<Value>, count: nat)

  ghost predicate Shaped(fields: seq<Field>, resp: Response)
    decreases |fields|
  {
    fields != [] ==>
      && fields[0] in resp
      && forall b | b in resp[fields[0]] :: Shaped(fields[1..], b.sub)
  }

  ghost function Below(key: Value, paths: seq<Path>): (r: seq<Path>)
    ensures |r| == |paths|
    ensures forall i | 0 <= i < |r| :: r[i] == Path([key] + paths[i].keys, paths[i].count)
  {
    seq(|paths|, i requires 0 <= i < |paths| => Path([key] + paths[i].keys, paths[i].count))
  }

  /** The paths through one bucket of the first field. */
  ghost function PathsOfBucket(fields: seq<Field>, b: Bucket): seq<Path>
    requires fields != [] && Shaped(fields[1..], b.sub)
    decreases |fields|, 0
  {
    if |fields| == 1 then [Path([b.key], b.docCount)]
    else Below(b.key, PathsOf(fields[1..], b.sub[fields[1]]))
  }

  /** The paths through a list of buckets of the first field, depth first. */
  ghost function PathsOf(fields: seq<Field>, buckets: seq<Bucket>): (r: seq<Path>)
    requires fields != [] && forall b | b in buckets :: Shaped(fields[1..], b.sub)
    ensures forall p | p in r :: |p.keys| == |fields|
    decreases |fields|, |buckets| + 1
  {
    if buckets == [] then []
    else
      var n := |buckets| - 1;
      PathsOf(fields, buckets[..n]) + PathsOfBucket(fields, buckets[n])
  }

  lemma {:induction false} AnswersAreShaped(fields: seq<Field>, docs: seq<Doc>, resp: Response)
    requires Answers(fields, docs, resp)
    ensures Shaped(fields, resp)
    decreases |fields|
  {
    if fields != [] {
      forall b | b in resp[fields[0]] ensures Shaped(fields[1..], b.sub) {
        AnswersAreShaped(fields[1..], With(docs, fields[0], b.key), b.sub);
      }
    }
  }

  lemma {:induction false} PathsStartWithKey(fields: seq<Field>, b: Bucket)
    requires fields != [] && Shaped(fields[1..], b.sub)
    ensures forall p | p in PathsOfBucket(fields, b) :: |p.keys| == |fields| && p.keys[0] == b.key
  {
  }

  /** The paths of a list are those of its buckets. */
  lemma {:induction false} PathsByBucket(fields: seq<Field>, buckets: seq<Bucket>, p: Path)
    requires fields != [] && forall b | b in buckets :: Shaped(fields[1..], b.sub)
    ensures p in PathsOf(fields, buckets) <==> exists b :: b in buckets && p in PathsOfBucket(fields, b)
    decreases |buckets|
  {
    if buckets != [] {
      var n := |buckets| - 1;
      PathsByBucket(fields, buckets[..n], p);
      assert buckets == buckets[..n] + [buckets[n]];
    }
  }

  /** The bucket a path starts with, and the rest of the path below it. */
  lemma SplitPath(fields: seq<Field>, buckets: seq<Bucket>, p: Path) returns (b: Bucket, q: Path)
    requires fields != [] && forall b | b in buckets :: Shaped(fields[1..], b.sub)
    requires p in PathsOf(fields, buckets)
    ensures b in buckets && |p.keys| == |fields| && p.keys[0] == b.key
    ensures q == Path(p.keys[1..], p.count)
    ensures if |fields| == 1 then p.count == b.docCount else q in PathsOf(fields[1..], b.sub[fields[1]])
  {
    PathsByBucket(fields, buckets, p);
    b :| b in buckets && p in PathsOfBucket(fields, b);
    PathsStartWithKey(fields, b);
    q := Path(p.keys[1..], p.count);
    if |fields| > 1 {
      var below := PathsOf(fields[1..], b.sub[fields[1]]);
      var i :| 0 <= i < |below| && p == Below(b.key, below)[i];
      assert p.keys[1..] == below[i].keys;
    }
  }

  /** Every path counts the documents that match its keys, and there are some. */
  lemma {:induction false} PathsCountGroups(fields: seq<Field>, docs: seq<Doc>, resp: Response, p: Path)
    requires fields != [] && Answers(fields, docs, resp) && Shaped(fields, resp)
    requires p in PathsOf(fields, resp[fields[0]])
    ensures |p.keys| == |fields| && p.count == |Group(docs, fields, p.keys)| > 0
    decreases |fields|
  {
    var b, q := SplitPath(fields, resp[fields[0]], p);
    if |fields| == 1 {
      GroupByOneField(docs, fields, p.keys);
      OccurringIffWith(docs, fields[0], b.key);
    } else {
      GroupStep(docs, fields, p.keys);
      PathsCountGroups(fields[1..], With(docs, fields[0], b.key), b.sub, q);
    }
  }

  ghost predicate DistinctKeys(paths: seq<Path>) {
    forall i, j | 0 <= i < j < |paths| :: paths[i].keys != paths[j].keys
  }

  lemma {:induction false} DistinctAcrossBuckets(fields: seq<Field>, buckets: seq<Bucket>)
    requires fields != [] && forall b | b in buckets :: Shaped(fields[1..], b.sub)
    requires forall i, j :: 0 <= i < j < |buckets| ==> buckets[i].key != buckets[j].key
    requires forall b | b in buckets :: DistinctKeys(PathsOfBucket(fields, b))
    ensures DistinctKeys(PathsOf(fields, buckets))
    decreases |buckets|
  {
    if buckets != [] {
      var n := |buckets| - 1;
      DistinctAcrossBuckets(fields, buckets[..n]);
      PathsStartWithKey(fields, buckets[n]);
      forall p | p in PathsOf(fields, buckets[..n])
        ensures p.keys[0] != buckets[n].key
      {
        PathsByBucket(fields, buckets[..n], p);
        var b :| b in buckets[..n] && p in PathsOfBucket(fields, b);
        PathsStartWithKey(fields, b);
      }
    }
  }

  /** No two paths have the same keys. */
  lemma {:induction false} PathsAreDistinct(fields: seq<Field>, docs: seq<Doc>, resp: Response)
    requires fields != [] && Answers(fields, docs, resp) && Shaped(fields, resp)
    ensures DistinctKeys(PathsOf(fields, resp[fields[0]]))
    decreases |fields|
  {
    if |fields| > 1 {
      forall b | b in resp[fields[0]]
        ensures DistinctKeys(PathsOfBucket(fields, b))
      {
        PathsAreDistinct(fields[1..], With(docs, fields[0], b.key), b.sub);
        var below := PathsOf(fields[1..], b.sub[fields[1]]);
        forall i, j | 0 <= i < j < |below|
          ensures Below(b.key, below)[i].keys != Below(b.key, below)[j].keys
        {
          assert ([b.key] + below[i].keys)[1..] == below[i].keys;
          assert ([b.key] + below[j].keys)[1..] == below[j].keys;
        }
      }
    }
    DistinctAcrossBuckets(fields, resp[fields[0]]);
  }

  /** Pigeonhole: n distinct keys among n values are all of them. */
  lemma {:induction false} DistinctKeysCover(buckets: seq<Bucket>, values: set<Value>)
    requires forall i, j :: 0 <= i < j < |buckets| ==> buckets[i].key != buckets[j].key
    requires forall b | b in buckets :: b.key in values
    requires |buckets| == |values|
    ensures forall v | v in values :: exists b :: b in buckets && b.key == v
  {
    if buckets != [] {
      var n := |buckets| - 1;
      DistinctKeysCover(buckets[..n], values - {buckets[n].key});
      forall v | v in values
        ensures exists b :: b in buckets && b.key == v
      {
        if v == buckets[n].key {
          assert buckets[n] in buckets;
        } else {
          assert v in values - {buckets[n].key};
          var b :| b in buckets[..n] && b.key == v;
          assert b in buckets;
        }
      }
    }
  }

  lemma BucketOfGroup(fields: seq<Field>, docs: seq<Doc>, resp: Response, keys: seq<Value>) returns (b: Bucket)
    requires fields != [] && Answers(fields, docs, resp)
    requires Untruncated(fields, docs)
    requires |keys| == |fields| && Group(docs, fields, keys) != []
    ensures b in resp[fields[0]] && b.key == keys[0]
    ensures Untruncated(fields[1..], With(docs, fields[0], b.key))
    ensures Group(With(docs, fields[0], b.key), fields[1..], keys[1..]) != []
  {
    GroupStep(docs, fields, keys);
    OccurringIffWith(docs, fields[0], keys[0]);
    DistinctKeysCover(resp[fields[0]], Occurring(docs, fields[0]));
    b :| b in resp[fields[0]] && b.key == keys[0];
  }

  /** When no level is cut, every group that occurs has its path. */
  lemma {:induction false} PathsCoverGroups(fields: seq<Field>, docs: seq<Doc>, resp: Response, keys: seq<Value>)
    requires fields != [] && Answers(fields, docs, resp) && Shaped(fields, resp)
    requires Untruncated(fields, docs)
    requires |keys| == |fields| && Group(docs, fields, keys) != []
    ensures exists p :: p in PathsOf(fields, resp[fields[0]]) && p.keys == keys
    decreases |fields|
  {
    var b := BucketOfGroup(fields, docs, resp, keys);
    var p: Path;
    if |fields| == 1 {
      p := Path([b.key], b.docCount);
      assert p.keys == keys;
    } else {
      PathsCoverGroups(fields[1..], With(docs, fields[0], b.key), b.sub, keys[1..]);
      var below := PathsOf(fields[1..], b.sub[fields[1]]);
      var q :| q in below && q.keys == keys[1..];
      var i :| 0 <= i < |below| && below[i] == q;
      p := Below(b.key, below)[i];
      assert p.keys == keys;
    }
    assert p in PathsOfBucket(fields, b);
    PathsByBucket(fields, resp[fields[0]], p);
  }

  // ---------------------------------------------------------------------------
  // The rows
  // ---------------------------------------------------------------------------

  ghost function Assign(base: Row, fields: seq<Field>, keys: seq<Value>): Row
    requires |keys| == |fields|
    decreases |fields|
  {
    if fields == [] then base else Assign(base[fields[0] := keys[0]], fields[1..], keys[1..])
  }

  /** What a row holds at the end of a path: the keys under their fields, and
      the count of the last bucket, which the last field hides if it is itself
      named "count". */
  ghost function RowOf(base: Row, fields: seq<Field>, path: Path): Row
    requires |path.keys| == |fields| > 0
  {
    var n := |fields| - 1;
    Assign(base, fields, path.keys)["count" := if fields[n] == "count" then path.keys[n] else Number(path.count)]
  }

  lemma {:induction false} AssignForgetsCount(base: Row, base': Row, fields: seq<Field>, keys: seq<Value>)
    requires |keys| == |fields|
    requires base["count" := Number(0)] == base'["count" := Number(0)]
    ensures Assign(base, fields, keys)["count" := Number(0)] == Assign(base', fields, keys)["count" := Number(0)]
    decreases |fields|
  {
    if fields != [] {
      assert base[fields[0] := keys[0]]["count" := Number(0)] == base'[fields[0] := keys[0]]["count" := Number(0)] by {
        var f := fields[0];
        if f == "count" {
          assert base[f := keys[0]]["count" := Number(0)] == base["count" := Number(0)];
          assert base'[f := keys[0]]["count" := Number(0)] == base'["count" := Number(0)];
        } else {
          assert base[f := keys[0]]["count" := Number(0)] == base["count" := Number(0)][f := keys[0]];
          assert base'[f := keys[0]]["count" := Number(0)] == base'["count" := Number(0)][f := keys[0]];
        }
      }
      AssignForgetsCount(base[fields[0] := keys[0]], base'[fields[0] := keys[0]], fields[1..], keys[1..]);
    }
  }

  /** Writing one bucket's count and key before going on below it gives the row
      of the whole path, whatever count was there. */
  lemma {:induction false} RowBelow(base: Row, fields: seq<Field>, b: Bucket, path: Path)
    requires |fields| > 1 && |path.keys| == |fields| - 1
    ensures RowOf(base["count" := Number(b.docCount)][fields[0] := b.key], fields[1..], path)
         == RowOf(base, fields, Path([b.key] + path.keys, path.count))
  {
    var f, keys := fields[0], [b.key] + path.keys;
    var n := |fields| - 1;
    assert keys[1..] == path.keys && fields[1..][n - 1] == fields[n] && path.keys[n - 1] == keys[n];
    var row, row' := base["count" := Number(b.docCount)][f := b.key], base[f := b.key];
    assert row["count" := Number(0)] == row'["count" := Number(0)];
    AssignForgetsCount(row, row', fields[1..], path.keys);
    var a, a' := Assign(row, fields[1..], path.keys), Assign(row', fields[1..], path.keys);
    var c := if fields[n] == "count" then keys[n] else Number(path.count);
    assert a["count" := Number(0)]["count" := c] == a["count" := c];
    assert a'["count" := Number(0)]["count" := c] == a'["count" := c];
  }

  /** The row of a path of length one. */
  lemma {:induction false} RowOfLeaf(base: Row, field: Field, b: Bucket)
    ensures RowOf(base, [field], Path([b.key], b.docCount)) == base["count" := Number(b.docCount)][field := b.key]
  {
    assert Assign(base, [field], [b.key]) == Assign(base[field := b.key], [], []);
  }

  /** The bases of two sibling buckets differ only in what each of them writes. */
  ghost predicate SameButFor(field: Field, row: Row, row': Row) {
    row["count" := Number(0)][field := Number(0)] == row'["count" := Number(0)][field := Number(0)]
  }

  lemma SiblingOverwrites(field: Field, row: Row, row': Row, n: Value, k: Value)
    requires SameButFor(field, row, row')
    ensures row["count" := n][field := k] == row'["count" := n][field := k]
    ensures SameButFor(field, row["count" := n][field := k], row')
  {
    var z := Number(0);
    assert row["count" := n][field := k] == row["count" := z][field := z]["count" := n][field := k];
    assert row'["count" := n][field := k] == row'["count" := z][field := z]["count" := n][field := k];
    assert row["count" := n][field := k]["count" := z][field := z] == row["count" := z][field := z];
  }

  class RowCell {
    var cells: Row

    constructor (cells: Row)
      ensures this.cells == cells
    {
      this.cells := cells;
    }
  }

  class Table {
    var rows: seq<RowCell>

    constructor ()
      ensures rows == []
    {
      rows := [];
    }
  }

  /** The rows the recursion writes below one bucket, from the row it was given. */
  ghost function RowsBelow(base: Row, fields: seq<Field>, b: Bucket): seq<Row>
    requires fields != [] && Shaped(fields[1..], b.sub)
    decreases |fields|, 0
  {
    var row := base["count" := Number(b.docCount)][fields[0] := b.key];
    if |fields| == 1 then [row] else FlatRows(row, fields[1..], b.sub[fields[1]])
  }

  ghost function FlatRows(base: Row, fields: seq<Field>, buckets: seq<Bucket>): seq<Row>
    requires fields != [] && forall b | b in buckets :: Shaped(fields[1..], b.sub)
    decreases |fields|, |buckets| + 1
  {
    if buckets == [] then []
    else
      var n := |buckets| - 1;
      FlatRows(base, fields, buckets[..n]) + RowsBelow(base, fields, buckets[n])
  }

  function Contents(rows: seq<RowCell>): seq<Row>
    reads rows
  {
    seq(|rows|, i requires 0 <= i < |rows| reads rows => rows[i].cells)
  }

  ghost predicate NoAliases(rows: seq<RowCell>) {
    forall i, j | 0 <= i < j < |rows| :: rows[i] != rows[j]
  }

  lemma Concatenated(added: seq<RowCell>, more: seq<RowCell>)
    requires NoAliases(added) && NoAliases(more)
    requires forall r | r in more :: r !in added
    ensures NoAliases(added + more)
    ensures Contents(added + more) == Contents(added) + Contents(more)
  {
    var all := added + more;
    forall i, j | 0 <= i < j < |all| ensures all[i] != all[j] {
      if i < |added| <= j {
        assert all[j] == more[j - |added|] && more[j - |added|] in more;
      }
    }
  }

  /** One iteration of GetRow's loop: writes the bucket into the row and adds the
      rows below it; returns the row object to go on with. */
  method AddBucket(bucket: Bucket, fields: seq<Field>, table: Table, row: RowCell)
    returns (next: RowCell, ghost added: seq<RowCell>)
    requires fields != [] && Shaped(fields[1..], bucket.sub)
    requires row !in table.rows
    modifies table, row
    ensures table.rows == old(table.rows) + added
    ensures Contents(added) == RowsBelow(old(row.cells), fields, bucket)
    ensures NoAliases(added) && forall r | r in added :: r == row || fresh(r)
    ensures next !in table.rows && (next == row || fresh(next))
    ensures next.cells == old(row.cells)["count" := Number(bucket.docCount)][fields[0] := bucket.key]
    decreases |fields|, 0
  {
    next := row;
    row.cells := row.cells["count" := Number(bucket.docCount)];
    row.cells := row.cells[fields[0] := bucket.key];
    var rest := fields[1..];
    if |rest| > 0 {
      var copied := new RowCell(row.cells);
      added := GetRow(bucket.sub, rest, table, copied);
    } else {
      table.rows := table.rows + [row];
      added := [row];
      next := new RowCell(row.cells);
    }
  }

  method GetRow(aggs: Response, fields: seq<Field>, table: Table, row0: RowCell)
    returns (ghost added: seq<RowCell>)
    requires fields != [] && Shaped(fields, aggs)
    requires row0 !in table.rows
    modifies table, row0
    ensures table.rows == old(table.rows) + added
    ensures Contents(added) == FlatRows(old(row0.cells), fields, aggs[fields[0]])
    ensures NoAliases(added) && forall r | r in added :: r == row0 || fresh(r)
    decreases |fields|, 1
  {
    var field, row := fields[0], row0;
    ghost var base := row0.cells;
    added := [];
    for k := 0 to |aggs[field]|
      invariant table.rows == old(table.rows) + added
      invariant row !in table.rows && (row == row0 || fresh(row))
      invariant SameButFor(field, row.cells, base)
      invariant Contents(added) == FlatRows(base, fields, aggs[field][..k])
      invariant NoAliases(added) && forall r | r in added :: r == row0 || fresh(r)
    {
      ghost var bucket, was := aggs[field][k], Contents(added);
      SiblingOverwrites(field, row.cells, base, Number(bucket.docCount), bucket.key);
      assert aggs[field][..k + 1][..k] == aggs[field][..k];
      ghost var more;
      row, more := AddBucket(aggs[field][k], fields, table, row);
      assert Contents(added) == was;
      Concatenated(added, more);
      added := added + more;
    }
    assert aggs[field][..|aggs[field]|] == aggs[field];
  }

  /** Appends one row object per root-to-leaf path, in depth-first order.  Every
      appended object is new and none occurs twice; no row that was there
      changes (none is in the frame); and each row holds only what its own path
      wrote. */
  method GetTableContents(aggregations: Response, fields: seq<Field>, table: Table)
    returns (ghost added: seq<RowCell>)
    requires fields != [] && Shaped(fields, aggregations)
    modifies table
    ensures table.rows == old(table.rows) + added
    ensures Contents(added) == FlatRows(map[], fields, aggregations[fields[0]])
    ensures NoAliases(added) && forall r | r in added :: fresh(r)
  {
    var field := fields[0];
    added := [];
    for k := 0 to |aggregations[field]|
      invariant table.rows == old(table.rows) + added
      invariant Contents(added) == FlatRows(map[], fields, aggregations[field][..k])
      invariant NoAliases(added) && forall r | r in added :: fresh(r)
    {
      var bucket := aggregations[field][k];
      ghost var was := Contents(added);
      assert aggregations[field][..k + 1][..k] == aggregations[field][..k];
      var row := new RowCell(map[]);
      row.cells := row.cells["count" := Number(bucket.docCount)];
      row.cells := row.cells[field := bucket.key];
      ghost var more;
      if |fields| > 1 {
        more := GetRow(bucket.sub, fields[1..], table, row);
      } else {
        table.rows := table.rows + [row];
        more := [row];
      }
      assert forall r | r in more :: fresh(r);
      assert Contents(added) == was;
      Concatenated(added, more);
      added := added + more;
    }
    assert aggregations[field][..|aggregations[field]|] == aggregations[field];
  }

  ghost function RowsOf(base: Row, fields: seq<Field>, paths: seq<Path>): seq<Row>
    requires fields != [] && forall p | p in paths :: |p.keys| == |fields|
  {
    seq(|paths|, i requires 0 <= i < |paths| => RowOf(base, fields, paths[i]))
  }

  lemma RowsOfConcat(base: Row, fields: seq<Field>, paths: seq<Path>, more: seq<Path>)
    requires fields != []
    requires (forall p | p in paths :: |p.keys| == |fields|) && (forall p | p in more :: |p.keys| == |fields|)
    ensures forall p | p in paths + more :: |p.keys| == |fields|
    ensures RowsOf(base, fields, paths + more) == RowsOf(base, fields, paths) + RowsOf(base, fields, more)
  {
  }

  lemma {:induction false} RowsBelowAreRowsOfPaths(base: Row, fields: seq<Field>, b: Bucket)
    requires fields != [] && Shaped(fields[1..], b.sub)
    ensures RowsBelow(base, fields, b) == RowsOf(base, fields, PathsOfBucket(fields, b))
    decreases |fields|, 0
  {
    if |fields| == 1 {
      assert fields == [fields[0]];
      RowOfLeaf(base, fields[0], b);
    } else {
      var row := base["count" := Number(b.docCount)][fields[0] := b.key];
      FlatRowsAreRowsOfPaths(row, fields[1..], b.sub[fields[1]]);
      var below := PathsOf(fields[1..], b.sub[fields[1]]);
      forall i | 0 <= i < |below|
        ensures RowOf(row, fields[1..], below[i]) == RowOf(base, fields, Below(b.key, below)[i])
      {
        RowBelow(base, fields, b, below[i]);
      }
    }
  }

  /** The recursion over rows and the recursion over paths describe the same
      table: nothing a sibling branch wrote is left in a row. */
  lemma {:induction false} FlatRowsAreRowsOfPaths(base: Row, fields: seq<Field>, buckets: seq<Bucket>)
    requires fields != [] && forall b | b in buckets :: Shaped(fields[1..], b.sub)
    ensures FlatRows(base, fields, buckets) == RowsOf(base, fields, PathsOf(fields, buckets))
    decreases |fields|, |buckets| + 1
  {
    if buckets != [] {
      var n := |buckets| - 1;
      FlatRowsAreRowsOfPaths(base, fields, buckets[..n]);
      RowsBelowAreRowsOfPaths(base, fields, buckets[n]);
      RowsOfConcat(base, fields, PathsOf(fields, buckets[..n]), PathsOfBucket(fields, buckets[n]));
    }
  }

  // ---------------------------------------------------------------------------
  // The table is the group-by
  // ---------------------------------------------------------------------------

  ghost predicate DistinctFields(fields: seq<Field>) {
    forall i, j | 0 <= i < j < |fields| :: fields[i] != fields[j]
  }

  /** A field that is asked for twice has one value. */
  ghost predicate Agree(fields: seq<Field>, keys: seq<Value>)
    requires |keys| == |fields|
  {
    forall i, j | 0 <= i < j < |fields| && fields[i] == fields[j] :: keys[i] == keys[j]
  }

  /** In no group of the documents a field has two values. */
  ghost predicate Clear(fields: seq<Field>, docs: seq<Doc>) {
    forall keys: seq<Value> | |keys| == |fields| && Group(docs, fields, keys) != [] :: Agree(fields, keys)
  }

  ghost predicate SingleValued(docs: seq<Doc>) {
    forall d, f, v, w | d in docs && Has(d, f, v) && Has(d, f, w) :: v == w
  }

  lemma {:induction false} GroupHasMember(docs: seq<Doc>, fields: seq<Field>, keys: seq<Value>) returns (d: Doc)
    requires |keys| == |fields| && Group(docs, fields, keys) != []
    ensures d in docs && MatchesTuple(d, fields, keys)
  {
    if MatchesTuple(docs[0], fields, keys) {
      d := docs[0];
    } else {
      d := GroupHasMember(docs[1..], fields, keys);
    }
  }

  /** That is so if the fields are distinct, or if no document has several values
      in one field. */
  lemma DistinctOrSingleIsClear(fields: seq<Field>, docs: seq<Doc>)
    requires DistinctFields(fields) || SingleValued(docs)
    ensures Clear(fields, docs)
  {
    forall keys: seq<Value> | |keys| == |fields| && Group(docs, fields, keys) != []
      ensures Agree(fields, keys)
    {
      var d := GroupHasMember(docs, fields, keys);
      forall i, j | 0 <= i < j < |fields| && fields[i] == fields[j]
        ensures keys[i] == keys[j]
      {
        assert Has(d, fields[i], keys[i]) && Has(d, fields[j], keys[j]);
      }
    }
  }

  /** The row of a group: its size under "count" and its keys under the fields. */
  ghost predicate IsRowFor(row: Row, fields: seq<Field>, keys: seq<Value>, count: nat)
    requires |keys| == |fields|
  {
    && row.Keys == (set f | f in fields) + {"count"}
    && row["count"] == Number(count)
    && forall i | 0 <= i < |fields| :: row[fields[i]] == keys[i]
  }

  lemma {:induction false} AssignedCells(base: Row, fields: seq<Field>, keys: seq<Value>)
    requires |keys| == |fields| && Agree(fields, keys)
    ensures var row := Assign(base, fields, keys);
            && row.Keys == base.Keys + (set f | f in fields)
            && (forall i | 0 <= i < |fields| :: row[fields[i]] == keys[i])
            && (forall f | f in base && f !in fields :: row[f] == base[f])
    decreases |fields|
  {
    if fields != [] {
      var base', rest := base[fields[0] := keys[0]], fields[1..];
      assert fields == [fields[0]] + rest;
      forall j | 0 <= j < |rest|
        ensures rest[j] == fields[j + 1] && keys[1..][j] == keys[j + 1]
      {
      }
      AssignedCells(base', rest, keys[1..]);
      FirstCell(base, fields, keys);
    }
  }

  /** The first field keeps its value, if it comes again or not. */
  lemma FirstCell(base: Row, fields: seq<Field>, keys: seq<Value>)
    requires |keys| == |fields| > 0 && Agree(fields, keys)
    requires var row, rest := Assign(base[fields[0] := keys[0]], fields[1..], keys[1..]), fields[1..];
             && row.Keys == base.Keys + {fields[0]} + (set f | f in rest)
             && (forall i | 0 <= i < |rest| :: row[rest[i]] == keys[1..][i])
             && (fields[0] !in rest ==> row[fields[0]] == keys[0])
    ensures Assign(base, fields, keys)[fields[0]] == keys[0]
  {
    if j :| 0 <= j < |fields[1..]| && fields[1..][j] == fields[0] {
      assert fields[j + 1] == fields[0] && keys[j + 1] == keys[0];
    }
  }

  lemma RowOfPathIsRowFor(fields: seq<Field>, path: Path)
    requires |path.keys| == |fields| > 0 && Agree(fields, path.keys) && "count" !in fields
    ensures IsRowFor(RowOf(map[], fields, path), fields, path.keys, path.count)
  {
    AssignedCells(map[], fields, path.keys);
  }

  /** Row k of the table is the row of the k-th path's group. */
  lemma RowOfGroup(fields: seq<Field>, docs: seq<Doc>, resp: Response, k: nat)
    requires fields != [] && Clear(fields, docs) && "count" !in fields
    requires Answers(fields, docs, resp) && Shaped(fields, resp)
    requires k < |PathsOf(fields, resp[fields[0]])|
    ensures var rows, keys := FlatRows(map[], fields, resp[fields[0]]), PathsOf(fields, resp[fields[0]])[k].keys;
            && |rows| == |PathsOf(fields, resp[fields[0]])|
            && |keys| == |fields| && Group(docs, fields, keys) != []
            && IsRowFor(rows[k], fields, keys, |Group(docs, fields, keys)|)
  {
    var paths := PathsOf(fields, resp[fields[0]]);
    assert paths[k] in paths;
    FlatRowsAreRowsOfPaths(map[], fields, resp[fields[0]]);
    PathsCountGroups(fields, docs, resp, paths[k]);
    RowOfPathIsRowFor(fields, paths[k]);
  }

  // The main result, in three parts that FlatRowsAreGroupBy puts together:
  // flattening any answer of the search engine to the built request gives the
  // flat group-by of the documents.

  /** Every row is the row of a group of at least one document. */
  lemma EveryRowIsAGroup(fields: seq<Field>, docs: seq<Doc>, resp: Response, row: Row)
    requires fields != [] && Clear(fields, docs) && "count" !in fields
    requires Answers(fields, docs, resp) && Shaped(fields, resp)
    requires row in FlatRows(map[], fields, resp[fields[0]])
    ensures exists keys: seq<Value> :: |keys| == |fields| && Group(docs, fields, keys) != []
                                    && IsRowFor(row, fields, keys, |Group(docs, fields, keys)|)
  {
    FlatRowsAreRowsOfPaths(map[], fields, resp[fields[0]]);
    var k :| 0 <= k < |FlatRows(map[], fields, resp[fields[0]])| && FlatRows(map[], fields, resp[fields[0]])[k] == row;
    RowOfGroup(fields, docs, resp, k);
  }

  /** No group has two rows. */
  lemma NoGroupTwice(fields: seq<Field>, docs: seq<Doc>, resp: Response, i: nat, j: nat, keys: seq<Value>, n: nat,
                     m: nat)
    requires fields != [] && Clear(fields, docs) && "count" !in fields
    requires Answers(fields, docs, resp) && Shaped(fields, resp)
    requires i < j < |FlatRows(map[], fields, resp[fields[0]])| && |keys| == |fields|
    ensures var rows := FlatRows(map[], fields, resp[fields[0]]);
            !(IsRowFor(rows[i], fields, keys, n) && IsRowFor(rows[j], fields, keys, m))
  {
    var rows, paths := FlatRows(map[], fields, resp[fields[0]]), PathsOf(fields, resp[fields[0]]);
    FlatRowsAreRowsOfPaths(map[], fields, resp[fields[0]]);
    RowOfGroup(fields, docs, resp, i);
    RowOfGroup(fields, docs, resp, j);
    PathsAreDistinct(fields, docs, resp);
    assert IsRowFor(rows[i], fields, keys, n) ==> keys == paths[i].keys;
    assert IsRowFor(rows[j], fields, keys, m) ==> keys == paths[j].keys;
  }

  /** Unless a level of the grouping is cut at the bucket limit, every group has
      its row. */
  lemma EveryGroupHasARow(fields: seq<Field>, docs: seq<Doc>, resp: Response, keys: seq<Value>)
    requires fields != [] && Clear(fields, docs) && "count" !in fields
    requires Answers(fields, docs, resp) && Shaped(fields, resp) && Untruncated(fields, docs)
    requires |keys| == |fields| && Group(docs, fields, keys) != []
    ensures exists row ::
              && row in FlatRows(map[], fields, resp[fields[0]])
              && IsRowFor(row, fields, keys, |Group(docs, fields, keys)|)
  {
    PathsCoverGroups(fields, docs, resp, keys);
    var paths := PathsOf(fields, resp[fields[0]]);
    var p :| p in paths && p.keys == keys;
    var k :| 0 <= k < |paths| && paths[k] == p;
    RowOfGroup(fields, docs, resp, k);
    assert FlatRows(map[], fields, resp[fields[0]])[k] in FlatRows(map[], fields, resp[fields[0]]);
  }

  /** An answer exists for any documents and fields, so the results are about
      something. */
  lemma {:induction false} AnAnswerExists(fields: seq<Field>, docs: seq<Doc>) returns (resp: Response)
    ensures Answers(fields, docs, resp)
    decreases |fields|, 1
  {
    if fields == [] {
      resp := map[];
    } else {
      var all := Occurring(docs, fields[0]);
      var buckets := SomeBuckets(fields, docs, all, if |all| <= BUCKET_LIMIT then |all| else BUCKET_LIMIT);
      resp := map[fields[0] := buckets];
    }
  }

  lemma {:induction false} SomeBuckets(fields: seq<Field>, docs: seq<Doc>, values: set<Value>, n: nat)
    returns (buckets: seq<Bucket>)
    requires fields != [] && n <= |values|
    ensures |buckets| == n
    ensures forall i, j :: 0 <= i < j < |buckets| ==> buckets[i].key != buckets[j].key
    ensures forall b | b in buckets ::
              && b.key in values && b.docCount == |With(docs, fields[0], b.key)|
              && Answers(fields[1..], With(docs, fields[0], b.key), b.sub)
    decreases |fields|, 0, n
  {
    if n == 0 {
      buckets := [];
    } else {
      var v :| v in values;
      var sub := AnAnswerExists(fields[1..], With(docs, fields[0], v));
      var others := SomeBuckets(fields, docs, values - {v}, n - 1);
      buckets := others + [Bucket(v, |With(docs, fields[0], v)|, sub)];
    }
  }

  ghost predicate IsRowOfGroup(row: Row, fields: seq<Field>, docs: seq<Doc>, keys: seq<Value>) {
    |keys| == |fields| && Group(docs, fields, keys) != [] && IsRowFor(row, fields, keys, |Group(docs, fields, keys)|)
  }

  ghost predicate HasRowOfEveryGroup(rows: seq<Row>, fields: seq<Field>, docs: seq<Doc>) {
    forall keys: seq<Value> | |keys| == |fields| && Group(docs, fields, keys) != [] ::
      exists row :: row in rows && IsRowOfGroup(row, fields, docs, keys)
  }

  /** The flat group-by of the documents, as a table: one row for each tuple of
      values that occurs, and no other row. */
  ghost predicate IsGroupBy(rows: seq<Row>, fields: seq<Field>, docs: seq<Doc>) {
    && (forall row | row in rows :: exists keys :: IsRowOfGroup(row, fields, docs, keys))
    && (forall i, j, keys | 0 <= i < j < |rows| ::
          !(IsRowOfGroup(rows[i], fields, docs, keys) && IsRowOfGroup(rows[j], fields, docs, keys)))
    && (Untruncated(fields, docs) ==> HasRowOfEveryGroup(rows, fields, docs))
  }

  lemma FlatRowsAreGroupBy(fields: seq<Field>, docs: seq<Doc>, resp: Response)
    requires fields != [] && Clear(fields, docs) && "count" !in fields
    requires Answers(fields, docs, resp) && Shaped(fields, resp)
    ensures IsGroupBy(FlatRows(map[], fields, resp[fields[0]]), fields, docs)
  {
    var rows := FlatRows(map[], fields, resp[fields[0]]);
    forall row | row in rows
      ensures exists keys :: IsRowOfGroup(row, fields, docs, keys)
    {
      EveryRowIsAGroup(fields, docs, resp, row);
      var keys: seq<Value> :| |keys| == |fields| && Group(docs, fields, keys) != []
                              && IsRowFor(row, fields, keys, |Group(docs, fields, keys)|);
      assert IsRowOfGroup(row, fields, docs, keys);
    }
    forall i, j, keys | 0 <= i < j < |rows| && IsRowOfGroup(rows[i], fields, docs, keys)
      ensures !IsRowOfGroup(rows[j], fields, docs, keys)
    {
      var n := |Group(docs, fields, keys)|;
      NoGroupTwice(fields, docs, resp, i, j, keys, n, n);
    }
    if Untruncated(fields, docs) {
      forall keys: seq<Value> | |keys| == |fields| && Group(docs, fields, keys) != []
        ensures exists row :: row in rows && IsRowOfGroup(row, fields, docs, keys)
      {
        EveryGroupHasARow(fields, docs, resp, keys);
        var row :| row in rows && IsRowFor(row, fields, keys, |Group(docs, fields, keys)|);
        assert IsRowOfGroup(row, fields, docs, keys);
      }
    }
  }

  const TWO := {Text("x"), Text("y")}

  /** A document with the same two values in each of the fields. */
  ghost function Plain(fields: seq<Field>): Doc { map f | f in fields :: TWO }

  lemma {:induction false} PlainIsUntruncated(all: seq<Field>, fields: seq<Field>)
    requires forall f | f in fields :: f in all
    ensures Untruncated(fields, [Plain(all)])
    decreases |fields|
  {
    if fields != [] {
      var docs, f := [Plain(all)], fields[0];
      assert Plain(all) in docs && forall v | v in TWO :: Has(Plain(all), f, v);
      assert forall v | v in Occurring(docs, f) :: v in TWO;
      assert forall v | v in TWO :: v in Occurring(docs, f);
      assert Occurring(docs, f) == TWO;
      forall v | v in TWO ensures With(docs, f, v) == docs {
        assert docs[1..] == [];
      }
      PlainIsUntruncated(all, fields[1..]);
    }
  }

  lemma GroupOfOne(doc: Doc, fields: seq<Field>, keys: seq<Value>)
    requires |keys| == |fields|
    ensures Group([doc], fields, keys) == if MatchesTuple(doc, fields, keys) then [doc] else []
  {
    assert [doc][1..] == [];
  }

  /** Where a field is named "count", or comes twice, some group of that document
      has no row. */
  lemma GroupWithoutRow(fields: seq<Field>) returns (keys: seq<Value>)
    requires "count" in fields || !DistinctFields(fields)
    ensures |keys| == |fields| && Group([Plain(fields)], fields, keys) != []
    ensures forall row: Row, n: nat :: !IsRowFor(row, fields, keys, n)
  {
    keys := seq(|fields|, _ => Text("x"));
    if "count" in fields {
      var i :| 0 <= i < |fields| && fields[i] == "count";
      assert keys[i] == Text("x");
    } else {
      var i, j :| 0 <= i < j < |fields| && fields[i] == fields[j];
      keys := keys[j := Text("y")];
      assert keys[i] == Text("x") && keys[j] == Text("y");
    }
    GroupOfOne(Plain(fields), fields, keys);
    assert forall k | 0 <= k < |fields| :: Has(Plain(fields), fields[k], keys[k]);
    assert MatchesTuple(Plain(fields), fields, keys);
  }

  /** The table that an answer for these documents is flattened to. */
  ghost predicate TableIsGroupBy(fields: seq<Field>, docs: seq<Doc>, resp: Response)
    requires fields != [] && Shaped(fields, resp)
  {
    IsGroupBy(FlatRows(map[], fields, resp[fields[0]]), fields, docs)
  }

  lemma BrokenTable(fields: seq<Field>) returns (docs: seq<Doc>, resp: Response)
    requires fields != [] && ("count" in fields || !DistinctFields(fields))
    ensures Answers(fields, docs, resp) && Shaped(fields, resp) && !TableIsGroupBy(fields, docs, resp)
  {
    docs := [Plain(fields)];
    resp := AnAnswerExists(fields, docs);
    AnswersAreShaped(fields, docs, resp);
    PlainIsUntruncated(fields, fields);
    var keys := GroupWithoutRow(fields);
    assert forall row :: !IsRowOfGroup(row, fields, docs, keys);
  }

  /** The table is the group-by of any documents, whatever the search engine
      answers, if and only if the fields are distinct and none is named "count":
      that cell is where the controller keeps the number of documents. */
  lemma TableIsGroupByIff(fields: seq<Field>)
    requires fields != []
    ensures (forall docs, resp | Answers(fields, docs, resp) && Shaped(fields, resp) ::
              TableIsGroupBy(fields, docs, resp))
       <==> DistinctFields(fields) && "count" !in fields
  {
    if DistinctFields(fields) && "count" !in fields {
      forall docs, resp | Answers(fields, docs, resp) && Shaped(fields, resp)
        ensures TableIsGroupBy(fields, docs, resp)
      {
        DistinctOrSingleIsClear(fields, docs);
        FlatRowsAreGroupBy(fields, docs, resp);
      }
    } else {
      var docs, resp := BrokenTable(fields);
    }
  }

  /** The count cells of a table are the numbers of documents that its paths' keys
      match. */
  ghost predicate CountsAreRight(fields: seq<Field>, docs: seq<Doc>, resp: Response)
    requires fields != [] && Shaped(fields, resp)
  {
    var rows, paths := FlatRows(map[], fields, resp[fields[0]]), PathsOf(fields, resp[fields[0]]);
    && |rows| == |paths|
    && forall k | 0 <= k < |rows| ::
         && |paths[k].keys| == |fields| && "count" in rows[k]
         && rows[k]["count"] == Number(|Group(docs, fields, paths[k].keys)|)
  }

  lemma RightCount(fields: seq<Field>, docs: seq<Doc>, resp: Response)
    requires fields != [] && Answers(fields, docs, resp) && Shaped(fields, resp) && fields[|fields| - 1] != "count"
    ensures CountsAreRight(fields, docs, resp)
  {
    FlatRowsAreRowsOfPaths(map[], fields, resp[fields[0]]);
    var rows, paths := FlatRows(map[], fields, resp[fields[0]]), PathsOf(fields, resp[fields[0]]);
    forall k | 0 <= k < |rows|
      ensures |paths[k].keys| == |fields| && "count" in rows[k]
      ensures rows[k]["count"] == Number(|Group(docs, fields, paths[k].keys)|)
    {
      assert rows[k] == RowOf(map[], fields, paths[k]);
      assert paths[k] in paths;
      PathsCountGroups(fields, docs, resp, paths[k]);
    }
  }

  lemma WrongCount(fields: seq<Field>) returns (docs: seq<Doc>, resp: Response)
    requires fields != [] && fields[|fields| - 1] == "count"
    ensures Answers(fields, docs, resp) && Shaped(fields, resp) && !CountsAreRight(fields, docs, resp)
  {
    docs := [Plain(fields)];
    resp := AnAnswerExists(fields, docs);
    AnswersAreShaped(fields, docs, resp);
    PlainIsUntruncated(fields, fields);
    var keys := seq(|fields|, _ => Text("x"));
    GroupOfOne(docs[0], fields, keys);
    assert forall k | 0 <= k < |fields| :: Has(docs[0], fields[k], keys[k]);
    assert MatchesTuple(docs[0], fields, keys);
    PathsCoverGroups(fields, docs, resp, keys);
    var paths := PathsOf(fields, resp[fields[0]]);
    var p :| p in paths && p.keys == keys;
    var k :| 0 <= k < |paths| && paths[k] == p;
    FlatRowsAreRowsOfPaths(map[], fields, resp[fields[0]]);
    assert FlatRows(map[], fields, resp[fields[0]])[k] == RowOf(map[], fields, p);
  }

  /** The cell "count" of every row is the number of documents of its path, for any
      answer, if and only if the last field is not itself named "count". */
  lemma CountCellIsCountIff(fields: seq<Field>)
    requires fields != []
    ensures (forall docs, resp | Answers(fields, docs, resp) && Shaped(fields, resp) ::
              CountsAreRight(fields, docs, resp))
       <==> fields[|fields| - 1] != "count"
  {
    if fields[|fields| - 1] != "count" {
      forall docs, resp | Answers(fields, docs, resp) && Shaped(fields, resp)
        ensures CountsAreRight(fields, docs, resp)
      {
        RightCount(fields, docs, resp);
      }
    } else {
      var docs, resp := WrongCount(fields);
    }
  }

  /** From the request to the table: whatever the search engine answers to the
      chain that was built, the rows appended are the group-by. */
  method FlattenAnswer(ghost nodes: seq<AggNode>, fields: seq<Field>, ghost docs: seq<Doc>, resp: Response,
                       table: Table)
    returns (ghost added: seq<RowCell>)
    requires fields != []
    requires IsChain(nodes, fields) && AnswersRequest(nodes, 0, docs, resp)
    modifies table
    ensures table.rows == old(table.rows) + added
    ensures NoAliases(added) && forall r | r in added :: fresh(r)
    ensures (DistinctFields(fields) || SingleValued(docs)) && "count" !in fields ==>
              IsGroupBy(Contents(added), fields, docs)
  {
    ChainAsksForFields(nodes, fields, 0, docs, resp);
    assert fields[0..] == fields;
    AnswersAreShaped(fields, docs, resp);
    if (DistinctFields(fields) || SingleValued(docs)) && "count" !in fields {
      DistinctOrSingleIsClear(fields, docs);
      FlatRowsAreGroupBy(fields, docs, resp);
    }
    added := GetTableContents(resp, fields, table);
  }
}
