/** The life of an alert document: the queries that select it and the updates
    that acknowledge, escalate and remove it.

    Documents live in a search engine that the controller drives with queries
    and update scripts.  An update may stop half way, so every step carries the
    set of documents it reached; all results hold whatever that set is. */
module AlertLifecycle {
  import opened Values
  import opened Wrappers

  datatype Field =
    | EventKind | Timestamp | Acknowledged | Escalated
    | HiveId | HiveStatus | HiveResolution | HiveImpact
    | SignalStatus | OriginalKind
    | Other(name: string)

  type Fields = map<Field, Value>

  datatype Index = Filebeat | SignalIndex

  datatype Doc = Doc(index: Index, fields: Fields)

  type DocId = nat
  type CaseId = int
  type Docs = map<DocId, Doc>

  // ---------------------------------------------------------------------------
  // Queries
  // ---------------------------------------------------------------------------

  datatype Clause = Match(field: Field, value: Value) | Range(gte: int, lte: int)

  datatype Query = Query(must: seq<Clause>, mustNot: seq<Clause>, filter: seq<Clause>)

  predicate Is(f: Fields, field: Field, v: Value) {
    field in f && f[field] == v
  }

  predicate InWindow(f: Fields, start: int, end: int) {
    Timestamp in f && f[Timestamp].Number? && start <= f[Timestamp].n <= end
  }

  predicate Holds(f: Fields, c: Clause) {
    match c
    case Match(field, v) => Is(f, field, v)
    case Range(gte, lte) => InWindow(f, gte, lte)
  }

  predicate All(f: Fields, cs: seq<Clause>) {
    forall c | c in cs :: Holds(f, c)
  }

  predicate NoneHold(f: Fields, cs: seq<Clause>) {
    forall c | c in cs :: !Holds(f, c)
  }

  predicate Matches(f: Fields, q: Query) {
    All(f, q.must) && NoneHold(f, q.mustNot) && All(f, q.filter)
  }

  /** What the user asks for: flags, kind, time window and further clauses. */
  datatype Request = Request(
    acknowledged: bool, escalated: bool, showClosed: bool,
    kind: string, start: int, end: int,
    extraMust: seq<Clause>, extraMustNot: seq<Clause>)

  predicate ValidKind(kind: string) { kind == "alert" || kind == "signal" }

  predicate YesOrNo(flag: string) { flag == "yes" || flag == "no" }

  predicate Resolved(f: Fields) { Is(f, HiveStatus, Text("Resolved")) }

  predicate IsEscalated(f: Fields) { Is(f, Escalated, Flag(true)) }

  predicate IsAcknowledged(f: Fields) { Is(f, Acknowledged, Flag(true)) }

  /** A signal that the detection engine did not copy from an alert. */
  predicate Native(f: Fields) { !Is(f, OriginalKind, Text("alert")) }

  /** The documents a request is about, before its three flags come in. */
  predicate InScope(f: Fields, r: Request) {
    && Is(f, EventKind, Text(r.kind))
    && InWindow(f, r.start, r.end)
    && All(f, r.extraMust) && NoneHold(f, r.extraMustNot)
  }

  /** The status that a request for signals looks for; None when its flags ask
      for two statuses at once and nothing matches. */
  function WantedStatus(r: Request): Option<string> {
    match (r.showClosed, r.acknowledged, r.escalated)
    case (false, false, false) => Some("open")
    case (false, true, false) => Some("closed")
    case (false, false, true) => Some("in-progress")
    case (false, true, true) => None
    case (true, false, false) => None
    case (true, _, _) => Some("closed")
  }

  /** What a request selects. */
  predicate Selects(f: Fields, r: Request) {
    && InScope(f, r)
    && Resolved(f) == r.showClosed
    && if r.kind == "signal" then
         Native(f) && WantedStatus(r).Some? && Is(f, SignalStatus, Text(WantedStatus(r).value))
       else
         IsAcknowledged(f) == r.acknowledged && IsEscalated(f) == r.escalated
  }

  function YesNo(b: bool): (s: string)
    ensures YesOrNo(s) && (b <==> s == "yes")
  {
    if b then "yes" else "no"
  }

  function HiveClause(closed: bool): seq<Clause> {
    if closed then [Match(HiveStatus, Text("Resolved"))] else []
  }

  /** The clauses that the flags add to "must" and to "must_not". */
  function FlagClauses(r: Request): seq<Clause> {
    if r.kind == "signal" then
      (if !r.acknowledged && !r.escalated then [Match(SignalStatus, Text("open"))] else [])
      + (if r.acknowledged then [Match(SignalStatus, Text("closed"))] else [])
      + (if r.showClosed then [Match(SignalStatus, Text("closed"))]
         else if r.escalated then [Match(SignalStatus, Text("in-progress"))] else [])
    else
      (if r.acknowledged then [Match(Acknowledged, Flag(true))] else [])
      + (if r.escalated then [Match(Escalated, Flag(true))] else [])
  }

  function FlagNotClauses(r: Request): seq<Clause> {
    if r.kind == "signal" then [Match(OriginalKind, Text("alert"))]
    else
      (if r.acknowledged then [] else [Match(Acknowledged, Flag(true))])
      + (if r.escalated then [] else [Match(Escalated, Flag(true))])
  }

  function QueryOf(r: Request): Query {
    Query([Range(r.start, r.end)] + HiveClause(r.showClosed) + r.extraMust + FlagClauses(r),
          HiveClause(!r.showClosed) + r.extraMustNot + FlagNotClauses(r),
          [Match(EventKind, Text(r.kind))])
  }

  lemma AllConcat(f: Fields, cs: seq<Clause>, ds: seq<Clause>)
    ensures All(f, cs + ds) <==> All(f, cs) && All(f, ds)
    ensures NoneHold(f, cs + ds) <==> NoneHold(f, cs) && NoneHold(f, ds)
  {
    assert forall c | c in cs :: c in cs + ds;
    assert forall c | c in ds :: c in cs + ds;
  }

  lemma AllOne(f: Fields, c: Clause)
    ensures All(f, [c]) <==> Holds(f, c)
    ensures NoneHold(f, [c]) <==> !Holds(f, c)
  {
    assert c in [c];
  }

  lemma SignalFlagsMean(f: Fields, r: Request)
    requires r.kind == "signal"
    ensures All(f, FlagClauses(r)) <==> WantedStatus(r).Some? && Is(f, SignalStatus, Text(WantedStatus(r).value))
    ensures NoneHold(f, FlagNotClauses(r)) <==> Native(f)
  {
    var open, closed := Match(SignalStatus, Text("open")), Match(SignalStatus, Text("closed"));
    var progress := Match(SignalStatus, Text("in-progress"));
    var ack := (if !r.acknowledged && !r.escalated then [open] else []) + (if r.acknowledged then [closed] else []);
    var last := if r.showClosed then [closed] else if r.escalated then [progress] else [];
    AllConcat(f, ack, last);
    AllConcat(f, if !r.acknowledged && !r.escalated then [open] else [], if r.acknowledged then [closed] else []);
    AllOne(f, open);
    AllOne(f, closed);
    AllOne(f, progress);
    AllOne(f, Match(OriginalKind, Text("alert")));
    assert "open" != "closed" && |"in-progress"| != |"closed"|;
  }

  lemma AlertFlagsMean(f: Fields, r: Request)
    requires r.kind != "signal"
    ensures All(f, FlagClauses(r)) && NoneHold(f, FlagNotClauses(r))
       <==> (IsAcknowledged(f) == r.acknowledged && IsEscalated(f) == r.escalated)
  {
    var ack, esc := [Match(Acknowledged, Flag(true))], [Match(Escalated, Flag(true))];
    AllConcat(f, if r.acknowledged then ack else [], if r.escalated then esc else []);
    AllConcat(f, if r.acknowledged then [] else ack, if r.escalated then [] else esc);
    AllOne(f, ack[0]);
    AllOne(f, esc[0]);
  }

  /** The query of a request matches exactly the documents that it selects. */
  lemma QuerySelects(f: Fields, r: Request)
    ensures Matches(f, QueryOf(r)) <==> Selects(f, r)
  {
    var must, mustNot := [Range(r.start, r.end)] + HiveClause(r.showClosed), HiveClause(!r.showClosed);
    AllConcat(f, must + r.extraMust, FlagClauses(r));
    AllConcat(f, must, r.extraMust);
    AllConcat(f, [Range(r.start, r.end)], HiveClause(r.showClosed));
    AllConcat(f, mustNot + r.extraMustNot, FlagNotClauses(r));
    AllConcat(f, mustNot, r.extraMustNot);
    AllOne(f, Range(r.start, r.end));
    AllOne(f, Match(HiveStatus, Text("Resolved")));
    AllOne(f, Match(EventKind, Text(r.kind)));
    if r.kind == "signal" { SignalFlagsMean(f, r); } else { AlertFlagsMean(f, r); }
  }

  lemma QueriesSelect(r: Request)
    ensures forall f: Fields :: Matches(f, QueryOf(r)) <==> Selects(f, r)
  {
    forall f: Fields {
      QuerySelects(f, r);
    }
  }

  /** Compiles the flags to a boolean query.  Any flag but "yes" and "no", and any
      kind but "alert" and "signal", is refused; otherwise the query matches
      exactly the documents that the request selects. */
  method BuildQueryClause(
    acknowledged: string, escalated: string, start: int, end: int, kind: string,
    extraMust: seq<Clause>, extraMustNot: seq<Clause>, showClosed: string)
    returns (q: Result<Query, string>)
    ensures q.Ok? <==> (YesOrNo(acknowledged) && YesOrNo(escalated) && YesOrNo(showClosed) && ValidKind(kind))
    ensures var r := Request(acknowledged == "yes", escalated == "yes", showClosed == "yes", kind, start, end,
                             extraMust, extraMustNot);
            q.Ok? ==> q.value == QueryOf(r) && forall f: Fields :: Matches(f, q.value) <==> Selects(f, r)
  {
    if !YesOrNo(acknowledged) || !YesOrNo(escalated) || !YesOrNo(showClosed) {
      return Err("a flag must be either yes or no");
    }
    if !ValidKind(kind) {
      return Err("Invalid search_kind passed in.");
    }
    var must, mustNot := [Range(start, end)], [];
    if showClosed == "yes" {
      must := must + [Match(HiveStatus, Text("Resolved"))];
    } else {
      mustNot := mustNot + [Match(HiveStatus, Text("Resolved"))];
    }
    must := must + extraMust;
    mustNot := mustNot + extraMustNot;
    ghost var r := Request(acknowledged == "yes", escalated == "yes", showClosed == "yes", kind, start, end,
                           extraMust, extraMustNot);
    ghost var must0, mustNot0 := must, mustNot;
    if kind == "signal" {
      mustNot := mustNot + [Match(OriginalKind, Text("alert"))];
      if acknowledged == "no" && escalated == "no" {
        must := must + [Match(SignalStatus, Text("open"))];
      }
      if acknowledged == "yes" {
        must := must + [Match(SignalStatus, Text("closed"))];
      }
      if showClosed == "yes" {
        must := must + [Match(SignalStatus, Text("closed"))];
      } else if escalated == "yes" {
        must := must + [Match(SignalStatus, Text("in-progress"))];
      }
      assert must == must0 + FlagClauses(r);
    } else {
      if acknowledged == "yes" {
        must := must + [Match(Acknowledged, Flag(true))];
      } else if acknowledged == "no" {
        mustNot := mustNot + [Match(Acknowledged, Flag(true))];
      }
      if escalated == "yes" {
        must := must + [Match(Escalated, Flag(true))];
      } else if escalated == "no" {
        mustNot := mustNot + [Match(Escalated, Flag(true))];
      }
      assert must == must0 + FlagClauses(r);
    }
    assert mustNot == mustNot0 + FlagNotClauses(r);
    q := Ok(Query(must, mustNot, [Match(EventKind, Text(kind))]));
    QueriesSelect(r);
  }

  // ---------------------------------------------------------------------------
  // Updates
  // ---------------------------------------------------------------------------

  /** An update script: the fields it assigns and those it removes (each script
      of the controller touches a field once, so the order does not matter). */
  datatype Script = Script(sets: Fields, removes: set<Field>)

  const RELEASE := {HiveResolution, HiveStatus, HiveImpact, HiveId}

  /** Assigning ctx._source.signal.status throws on a document without a signal. */
  predicate CanRun(f: Fields, s: Script) {
    SignalStatus in s.sets ==> SignalStatus in f
  }

  function Apply(f: Fields, s: Script): Fields {
    (f + s.sets) - s.removes
  }

  datatype Update = Update(indices: set<Index>, query: Query, script: Script)

  predicate Targets(u: Update, d: Doc) {
    d.index in u.indices && Matches(d.fields, u.query)
  }

  /** update_by_query: of the documents targeted, those reached whose script runs
      are rewritten.  Nothing else changes, and no document comes or goes. */
  function UpdateMatching(docs: Docs, u: Update, reached: set<DocId>): Docs {
    map id | id in docs ::
      if id in reached && Targets(u, docs[id]) && CanRun(docs[id].fields, u.script)
      then docs[id].(fields := Apply(docs[id].fields, u.script)) else docs[id]
  }

  /** Every document targeted was reached and its script runs. */
  predicate Complete(docs: Docs, u: Update, reached: set<DocId>) {
    forall id | id in docs && Targets(u, docs[id]) :: id in reached && CanRun(docs[id].fields, u.script)
  }

  function EscalateScript(kind: string, c: CaseId): Script {
    var sets := map[Escalated := Flag(true), HiveId := Number(c)];
    Script(if kind == "signal" then sets[SignalStatus := Text("in-progress")] else sets, {})
  }

  function AcknowledgeScript(kind: string, to: bool): Script {
    var sets := map[Acknowledged := Flag(to)];
    Script(if kind == "signal" then sets[SignalStatus := Text(if to then "closed" else "open")] else sets, {})
  }

  function ReleaseScript(kind: string): Script {
    var sets := map[Acknowledged := Flag(true), Escalated := Flag(false)];
    Script(if kind == "signal" then sets[SignalStatus := Text("closed")] else sets, RELEASE)
  }

  function CaseUpdateScript(kind: string, status: string, resolution: string, impact: string): Script {
    var sets := map[HiveResolution := Text(resolution), HiveStatus := Text(status), HiveImpact := Text(impact)];
    var signalStatus := Text(if status == "Resolved" then "closed" else "in-progress");
    Script(if kind == "signal" then sets[SignalStatus := signalStatus] else sets, {})
  }

  const ALL_INDICES := {Filebeat, SignalIndex}

  function ModifyIndices(kind: string): set<Index> {
    if kind == "signal" then {SignalIndex} else {Filebeat}
  }

  function CaseQuery(c: CaseId): Query {
    Query([Match(HiveId, Number(c))], [], [])
  }

  /** The steps that change documents.  Outcomes of outside services are part of
      the step: the case that was created (None if that failed), whether the case
      could be deleted, the search's first hit, the documents an update reached. */
  datatype Action =
    | Modify(r: Request, perform: bool, created: Option<CaseId>, reached: set<DocId>)
    | Remove(r: Request, hit: Option<DocId>, deleted: bool, reached: set<DocId>)
    | Webhook(caseId: CaseId, delete: bool, kind: string, status: string, resolution: string, impact: string,
              reached: set<DocId>)
    | Ingest(id: DocId, doc: Doc)

  /** The modify endpoint always searches among what is not closed. */
  function ModifyRequest(r: Request): Request { r.(showClosed := false) }

  /** The update that a step sends, if it gets that far. */
  function UpdateSent(docs: Docs, a: Action): Option<Update> {
    match a
    case Modify(r, perform, created, _) =>
      if !ValidKind(r.kind) || (perform && (created.None? || r.escalated)) then None
      else
        Some(Update(ModifyIndices(r.kind), QueryOf(ModifyRequest(r)),
                    if perform then EscalateScript(r.kind, created.value)
                    else AcknowledgeScript(r.kind, !r.acknowledged)))
    case Remove(r, hit, deleted, _) =>
      if ValidKind(r.kind) && hit.Some? && hit.value in docs && Matches(docs[hit.value].fields, QueryOf(r))
         && HasCase(docs[hit.value].fields) && deleted
      then Some(Update(ALL_INDICES, CaseQuery(CaseOf(docs[hit.value].fields)), ReleaseScript(r.kind)))
      else None
    case Webhook(c, delete, kind, status, resolution, impact, _) =>
      Some(Update(ALL_INDICES, CaseQuery(c),
                  if delete then ReleaseScript(kind) else CaseUpdateScript(kind, status, resolution, impact)))
    case Ingest(_, _) => None
  }

  predicate HasCase(f: Fields) { HiveId in f && f[HiveId].Number? }

  function CaseOf(f: Fields): CaseId
    requires HasCase(f)
  {
    f[HiveId].n
  }

  /** New documents come in unescalated, and detected signals have a status. */
  predicate Fresh(f: Fields) {
    && !IsEscalated(f)
    && HiveId !in f && HiveStatus !in f && HiveResolution !in f && HiveImpact !in f
    && (Is(f, EventKind, Text("signal")) ==> SignalStatus in f)
  }

  function Step(docs: Docs, a: Action): Docs {
    if a.Ingest? then
      if a.id !in docs && Fresh(a.doc.fields) then docs[a.id := a.doc] else docs
    else
      match UpdateSent(docs, a)
      case None => docs
      case Some(u) => UpdateMatching(docs, u, a.reached)
  }

  // ---------------------------------------------------------------------------
  // The endpoints
  // ---------------------------------------------------------------------------

  datatype Reply = Answer(ok: bool) | BadRequest | Raised

  class AlertStore {
    var docs: Docs

    constructor ()
      ensures docs == map[]
    {
      docs := map[];
    }

    /** ok reports that there was no failure: every targeted document was rewritten. */
    method UpdateByQuery(u: Update, reached: set<DocId>) returns (ok: bool)
      modifies this
      ensures docs == UpdateMatching(old(docs), u, reached)
      ensures ok <==> Complete(old(docs), u, reached)
    {
      ok := Complete(docs, u, reached);
      docs := UpdateMatching(docs, u, reached);
    }

    /** Acknowledge, un-acknowledge or escalate.  When escalation is asked for
        documents that are already escalated no update is sent, and the code
        then reads a variable that was never set. */
    method Modify(r: Request, perform: bool, created: Option<CaseId>, reached: set<DocId>) returns (reply: Reply)
      modifies this
      ensures docs == Step(old(docs), Action.Modify(r, perform, created, reached))
      ensures reply.Answer? <==> UpdateSent(old(docs), Action.Modify(r, perform, created, reached)).Some?
      ensures var sent := UpdateSent(old(docs), Action.Modify(r, perform, created, reached));
              reply.Answer? ==> (reply.ok <==> Complete(old(docs), sent.value, reached))
      ensures reply.BadRequest? <==> ValidKind(r.kind) && perform && created.None?
    {
      var acknowledged, escalated := YesNo(r.acknowledged), YesNo(r.escalated);
      var query := BuildQueryClause(acknowledged, escalated, r.start, r.end, r.kind, r.extraMust, r.extraMustNot, "no");
      if query.Err? {
        return Raised;
      }
      if perform {
        if created.None? {
          return BadRequest;
        }
      }
      var ok: Option<bool> := None;
      if r.kind == "signal" {
        if perform {
          if escalated == "no" {
            var sets := map[Escalated := Flag(true), HiveId := Number(created.value)];
            var script := Script(sets[SignalStatus := Text("in-progress")], {});
            var sent := UpdateByQuery(Update({SignalIndex}, query.value, script), reached);
            ok := Some(sent);
          }
        } else {
          if acknowledged == "yes" {
            var script := Script(map[Acknowledged := Flag(false), SignalStatus := Text("open")], {});
            var sent := UpdateByQuery(Update({SignalIndex}, query.value, script), reached);
            ok := Some(sent);
          } else if acknowledged == "no" {
            var script := Script(map[Acknowledged := Flag(true), SignalStatus := Text("closed")], {});
            var sent := UpdateByQuery(Update({SignalIndex}, query.value, script), reached);
            ok := Some(sent);
          }
        }
      } else {
        if perform {
          if escalated == "no" {
            var script := Script(map[Escalated := Flag(true), HiveId := Number(created.value)], {});
            var sent := UpdateByQuery(Update({Filebeat}, query.value, script), reached);
            ok := Some(sent);
          }
        } else {
          if acknowledged == "yes" {
            var script := Script(map[Acknowledged := Flag(false)], {});
            var sent := UpdateByQuery(Update({Filebeat}, query.value, script), reached);
            ok := Some(sent);
          } else if acknowledged == "no" {
            var script := Script(map[Acknowledged := Flag(true)], {});
            var sent := UpdateByQuery(Update({Filebeat}, query.value, script), reached);
            ok := Some(sent);
          }
        }
      }
      if ok.None? {
        return Raised;
      }
      return Answer(ok.value);
    }

    /** Deletes the case of the search's first hit and takes every document out of
        that case.  Without a hit, or without a case on it, a lookup fails. */
    method Remove(r: Request, hit: Option<DocId>, deleted: bool, reached: set<DocId>) returns (reply: Reply)
      modifies this
      ensures docs == Step(old(docs), Action.Remove(r, hit, deleted, reached))
      ensures reply.Answer? <==> UpdateSent(old(docs), Action.Remove(r, hit, deleted, reached)).Some?
      ensures var sent := UpdateSent(old(docs), Action.Remove(r, hit, deleted, reached));
              reply.Answer? ==> (reply.ok <==> Complete(old(docs), sent.value, reached))
    {
      var search := BuildQueryClause(YesNo(r.acknowledged), YesNo(r.escalated), r.start, r.end, r.kind,
                                     r.extraMust, r.extraMustNot, YesNo(r.showClosed));
      if search.Err? {
        return Raised;
      }
      // The search returns no document that does not match.
      if hit.None? || hit.value !in docs || !Matches(docs[hit.value].fields, search.value) {
        return Raised;
      }
      if !HasCase(docs[hit.value].fields) {
        return Raised;
      }
      var hiveId := docs[hit.value].fields[HiveId].n;
      if !deleted {
        return Raised;
      }
      var query, ok := Query([Match(HiveId, Number(hiveId))], [], []), false;
      if r.kind == "signal" {
        var script := Script(map[Acknowledged := Flag(true), Escalated := Flag(false), SignalStatus := Text("closed")],
                             {HiveResolution, HiveStatus, HiveImpact, HiveId});
        ok := UpdateByQuery(Update(ALL_INDICES, query, script), reached);
      } else {
        var script := Script(map[Acknowledged := Flag(true), Escalated := Flag(false)],
                             {HiveResolution, HiveStatus, HiveImpact, HiveId});
        ok := UpdateByQuery(Update(ALL_INDICES, query, script), reached);
      }
      return Answer(ok);
    }

    /** A change of a case, reported by the case system. */
    method ReceiveWebhook(caseId: CaseId, delete: bool, kind: string,
                          status: string, resolution: string, impact: string, reached: set<DocId>)
      returns (reply: Reply)
      modifies this
      ensures docs == Step(old(docs), Action.Webhook(caseId, delete, kind, status, resolution, impact, reached))
      ensures var a := Action.Webhook(caseId, delete, kind, status, resolution, impact, reached);
              reply.Answer? && (reply.ok <==> Complete(old(docs), UpdateSent(old(docs), a).value, reached))
    {
      var query := Query([Match(HiveId, Number(caseId))], [], []);
      var sets := map[HiveResolution := Text(resolution), HiveStatus := Text(status), HiveImpact := Text(impact)];
      var script := Script(sets, {});
      if delete {
        script := Script(map[Escalated := Flag(false), Acknowledged := Flag(true)],
                         {HiveResolution, HiveStatus, HiveImpact, HiveId});
        if kind == "signal" {
          script := script.(sets := script.sets[SignalStatus := Text("closed")]);
        }
      } else if kind == "signal" {
        if status == "Resolved" {
          script := script.(sets := script.sets[SignalStatus := Text("closed")]);
        } else {
          script := script.(sets := script.sets[SignalStatus := Text("in-progress")]);
        }
      }
      ghost var expected := if delete then ReleaseScript(kind) else CaseUpdateScript(kind, status, resolution, impact);
      assert script.sets == expected.sets;
      var ok := UpdateByQuery(Update(ALL_INDICES, query, script), reached);
      return Answer(ok);
    }
  }

  // ---------------------------------------------------------------------------
  // Every run
  // ---------------------------------------------------------------------------

  function Run(docs: Docs, actions: seq<Action>): Docs {
    if actions == [] then docs
    else Step(Run(docs, actions[..|actions| - 1]), actions[|actions| - 1])
  }

  ghost predicate AllFresh(docs: Docs) {
    forall id | id in docs :: Fresh(docs[id].fields)
  }

  /** Escalated exactly when in a case; case fields only when in a case; a case is
      a number; a signal has a status. */
  ghost predicate Consistent(f: Fields) {
    && (IsEscalated(f) <==> HiveId in f)
    && (HiveStatus in f || HiveResolution in f || HiveImpact in f ==> HiveId in f)
    && (HiveId in f ==> HasCase(f))
    && (Is(f, EventKind, Text("signal")) ==> SignalStatus in f)
  }

  ghost predicate AllConsistent(docs: Docs) {
    forall id | id in docs :: Consistent(docs[id].fields)
  }

  lemma CaseQueryMatches(f: Fields, c: CaseId)
    ensures Matches(f, CaseQuery(c)) <==> HasCase(f) && CaseOf(f) == c
  {
    AllOne(f, Match(HiveId, Number(c)));
  }

  /** No script of any step breaks a document it is run on. */
  lemma ScriptKeepsConsistent(docs: Docs, a: Action, f: Fields)
    requires UpdateSent(docs, a).Some? && Consistent(f)
    requires Matches(f, UpdateSent(docs, a).value.query) && CanRun(f, UpdateSent(docs, a).value.script)
    ensures Consistent(Apply(f, UpdateSent(docs, a).value.script))
  {
    if a.Webhook? {
      CaseQueryMatches(f, a.caseId);
    }
  }

  /** Over every run from unescalated documents, whatever each update reached. */
  lemma {:induction false} RunsStayConsistent(docs: Docs, actions: seq<Action>)
    requires AllFresh(docs)
    ensures AllConsistent(Run(docs, actions))
  {
    if actions != [] {
      var before, a := Run(docs, actions[..|actions| - 1]), actions[|actions| - 1];
      RunsStayConsistent(docs, actions[..|actions| - 1]);
      forall id | id in Step(before, a)
        ensures Consistent(Step(before, a)[id].fields)
      {
        if UpdateSent(before, a).Some? {
          var u := UpdateSent(before, a).value;
          if Targets(u, before[id]) && CanRun(before[id].fields, u.script) {
            ScriptKeepsConsistent(before, a, before[id].fields);
          }
        }
      }
    }
  }

  /** The steps that take documents out of a case. */
  predicate Releases(a: Action) { a.Remove? || (a.Webhook? && a.delete) }

  /** The step sends an update that releases the documents of this case. */
  predicate ReleasesCase(docs: Docs, a: Action, c: CaseId) {
    Releases(a) && UpdateSent(docs, a).Some? && UpdateSent(docs, a).value.query == CaseQuery(c)
  }

  ghost predicate InCase(docs: Docs, id: DocId, kind: string, c: CaseId) {
    && id in docs && Is(docs[id].fields, EventKind, Text(kind))
    && HasCase(docs[id].fields) && CaseOf(docs[id].fields) == c
  }

  /** A script that matches an alert in a case leaves the case alone, unless it is
      the release of exactly that case. */
  lemma ScriptKeepsAlertCase(docs: Docs, a: Action, f: Fields)
    requires UpdateSent(docs, a).Some? && Consistent(f) && HasCase(f) && Is(f, EventKind, Text("alert"))
    requires Matches(f, UpdateSent(docs, a).value.query)
    ensures var s := UpdateSent(docs, a).value.script;
            || (HiveId !in s.sets && HiveId !in s.removes)
            || (ReleasesCase(docs, a, CaseOf(f)) && HiveId in s.removes)
  {
    if a.Modify? {
      QuerySelects(f, ModifyRequest(a.r));
    } else {
      CaseQueryMatches(f, if a.Remove? then CaseOf(docs[a.hit.value].fields) else a.caseId);
    }
  }

  /** A step leaves a document as it is, or rewrites it by the script it sends. */
  lemma StepOn(docs: Docs, a: Action, id: DocId)
    requires id in docs
    ensures id in Step(docs, a)
    ensures Step(docs, a)[id] == docs[id]
         || (&& UpdateSent(docs, a).Some? && Targets(UpdateSent(docs, a).value, docs[id])
             && Step(docs, a)[id].fields == Apply(docs[id].fields, UpdateSent(docs, a).value.script))
  {
  }

  lemma ScriptKeepsEventKind(docs: Docs, a: Action)
    requires UpdateSent(docs, a).Some?
    ensures var s := UpdateSent(docs, a).value.script; EventKind !in s.sets && EventKind !in s.removes
  {
  }

  /** One step leaves an alert in its case, unless it releases exactly that case. */
  lemma StepKeepsAlertInCase(docs: Docs, a: Action, id: DocId, c: CaseId)
    requires AllConsistent(docs) && InCase(docs, id, "alert", c)
    ensures InCase(Step(docs, a), id, "alert", c) ||
            (ReleasesCase(docs, a, c) && id in Step(docs, a) && HiveId !in Step(docs, a)[id].fields)
  {
    StepOn(docs, a, id);
    if Step(docs, a)[id] != docs[id] {
      ScriptKeepsEventKind(docs, a);
      ScriptKeepsAlertCase(docs, a, docs[id].fields);
    }
  }

  lemma RunStep(docs: Docs, actions: seq<Action>, i: nat)
    requires i < |actions|
    ensures Run(docs, actions[..i + 1]) == Step(Run(docs, actions[..i]), actions[i])
  {
    assert actions[..i + 1][..i] == actions[..i];
  }

  /** A document that is in a case at one time and not at a later one leaves it at
      some step in between. */
  lemma {:induction false} LeavesAtSomeStep(docs: Docs, actions: seq<Action>, i: nat, j: nat,
                                            id: DocId, kind: string, c: CaseId)
    returns (k: nat)
    requires i <= j <= |actions|
    requires InCase(Run(docs, actions[..i]), id, kind, c) && !InCase(Run(docs, actions[..j]), id, kind, c)
    ensures i <= k < j
    ensures InCase(Run(docs, actions[..k]), id, kind, c)
    ensures !InCase(Step(Run(docs, actions[..k]), actions[k]), id, kind, c)
    decreases j - i
  {
    assert i < j;
    RunStep(docs, actions, i);
    if InCase(Run(docs, actions[..i + 1]), id, kind, c) {
      k := LeavesAtSomeStep(docs, actions, i + 1, j, id, kind, c);
    } else {
      k := i;
    }
  }

  /** Over whole runs: an alert that is in a case at one time and not in that case
      later left it at a step that released that very case. */
  lemma AlertLeavesCaseOnlyByRelease(docs: Docs, actions: seq<Action>, i: nat, j: nat, id: DocId, c: CaseId)
    returns (k: nat)
    requires AllFresh(docs) && i <= j <= |actions|
    requires InCase(Run(docs, actions[..i]), id, "alert", c) && !InCase(Run(docs, actions[..j]), id, "alert", c)
    ensures i <= k < j && ReleasesCase(Run(docs, actions[..k]), actions[k], c)
    ensures InCase(Run(docs, actions[..k]), id, "alert", c) && !InCase(Run(docs, actions[..k + 1]), id, "alert", c)
  {
    k := LeavesAtSomeStep(docs, actions, i, j, id, "alert", c);
    RunsStayConsistent(docs, actions[..k]);
    RunStep(docs, actions, k);
    StepKeepsAlertInCase(Run(docs, actions[..k]), actions[k], id, c);
  }

  /** The request for the signals of one instant. */
  function SignalsAt(t: int, acknowledged: bool, escalated: bool): Request {
    Request(acknowledged, escalated, false, "signal", t, t, [], [])
  }

  /** Signals are different.  One in a case can be moved to another case without
      leaving the first if an open or closed status, rather than "in-progress",
      makes it look unescalated to the query. */
  predicate Movable(d: Doc) {
    && d.index == SignalIndex
    && Native(d.fields) && !Resolved(d.fields) && Timestamp in d.fields && d.fields[Timestamp].Number?
    && (Is(d.fields, SignalStatus, Text("open")) || Is(d.fields, SignalStatus, Text("closed")))
  }

  lemma SelectedIsMovable(d: Doc, r: Request)
    requires Is(d.fields, EventKind, Text("signal")) && d.index in ModifyIndices(r.kind)
    requires ValidKind(r.kind) && !r.escalated && Selects(d.fields, ModifyRequest(r))
    ensures Movable(d)
  {
    assert |"alert"| != |"signal"|;
  }

  /** No step but a release of its case moves a signal that is not movable. */
  lemma StepKeepsUnmovableSignal(docs: Docs, a: Action, id: DocId, c: CaseId)
    requires InCase(docs, id, "signal", c) && !ReleasesCase(docs, a, c) && !Movable(docs[id])
    ensures InCase(Step(docs, a), id, "signal", c)
  {
    if UpdateSent(docs, a).Some? && Targets(UpdateSent(docs, a).value, docs[id]) {
      var f := docs[id].fields;
      if a.Modify? {
        QuerySelects(f, ModifyRequest(a.r));
        if a.perform {
          SelectedIsMovable(docs[id], a.r);
        }
      } else {
        CaseQueryMatches(f, if a.Remove? then CaseOf(docs[a.hit.value].fields) else a.caseId);
      }
    }
  }

  /** Over whole runs: a signal that is no longer in a case left it at a step that
      released the case, or while it was movable. */
  lemma SignalLeavesCaseOnlyIfMovable(docs: Docs, actions: seq<Action>, i: nat, j: nat, id: DocId, c: CaseId)
    returns (k: nat)
    requires i <= j <= |actions|
    requires InCase(Run(docs, actions[..i]), id, "signal", c) && !InCase(Run(docs, actions[..j]), id, "signal", c)
    ensures i <= k < j
    ensures InCase(Run(docs, actions[..k]), id, "signal", c) && !InCase(Run(docs, actions[..k + 1]), id, "signal", c)
    ensures ReleasesCase(Run(docs, actions[..k]), actions[k], c) || Movable(Run(docs, actions[..k])[id])
  {
    k := LeavesAtSomeStep(docs, actions, i, j, id, "signal", c);
    RunStep(docs, actions, k);
    var now := Run(docs, actions[..k]);
    if !ReleasesCase(now, actions[k], c) && !Movable(now[id]) {
      StepKeepsUnmovableSignal(now, actions[k], id, c);
    }
  }

  /** Some modify step moves a movable one, to any other case. */
  lemma MovableIsMoved(docs: Docs, id: DocId, c: CaseId, c': CaseId) returns (a: Action)
    requires InCase(docs, id, "signal", c) && Movable(docs[id])
    ensures a.Modify? && InCase(Step(docs, a), id, "signal", c')
  {
    var f := docs[id].fields;
    var r := SignalsAt(f[Timestamp].n, Is(f, SignalStatus, Text("closed")), false);
    a := Modify(r, true, Some(c'), {id});
    assert "open" != "closed";
    assert Selects(f, ModifyRequest(r));
    QuerySelects(f, ModifyRequest(r));
  }

  /** The condition is exact: without a release of its case, some step takes a
      signal out of that case if and only if it is movable. */
  lemma SignalCanBeMovedIff(docs: Docs, id: DocId, c: CaseId)
    requires InCase(docs, id, "signal", c)
    ensures (exists a: Action :: !ReleasesCase(docs, a, c) && !InCase(Step(docs, a), id, "signal", c))
       <==> Movable(docs[id])
  {
    if Movable(docs[id]) {
      var a := MovableIsMoved(docs, id, c, c + 1);
      assert !ReleasesCase(docs, a, c) && !InCase(Step(docs, a), id, "signal", c);
    } else {
      forall a: Action | !ReleasesCase(docs, a, c)
        ensures InCase(Step(docs, a), id, "signal", c)
      {
        StepKeepsUnmovableSignal(docs, a, id, c);
      }
    }
  }

  /** A modify step on a store of one signal that it selects. */
  lemma StepOfOneSignal(f: Fields, a: Action, f': Fields)
    requires a.Modify? && a.r.kind == "signal" && (a.perform ==> a.created.Some? && !a.r.escalated)
    requires a.reached == {0} && SignalStatus in f && Selects(f, ModifyRequest(a.r))
    requires f' == Apply(f, if a.perform then EscalateScript("signal", a.created.value)
                            else AcknowledgeScript("signal", !a.r.acknowledged))
    ensures Step(map[0 := Doc(SignalIndex, f)], a) == map[0 := Doc(SignalIndex, f')]
  {
    QuerySelects(f, ModifyRequest(a.r));
  }

  lemma RunOfThree(docs: Docs, a: Action, b: Action, c: Action)
    ensures Run(docs, [a]) == Step(docs, a)
    ensures Run(docs, [a, b, c]) == Step(Step(Step(docs, a), b), c)
  {
    assert [a, b, c][..2] == [a, b] && [a, b][..1] == [a] && [a][..0] == [];
  }

  ghost predicate OpenSignal(f: Fields, t: int) {
    && Fresh(f) && Native(f)
    && Is(f, EventKind, Text("signal")) && Is(f, Timestamp, Number(t)) && Is(f, SignalStatus, Text("open"))
  }

  lemma ScriptsOfTheMove(f: Fields, t: int, c: CaseId, c': CaseId)
    requires OpenSignal(f, t)
    ensures var f1 := Apply(f, EscalateScript("signal", c));
            var f2 := Apply(f1, AcknowledgeScript("signal", true));
            && Selects(f, SignalsAt(t, false, false)) && Selects(f1, SignalsAt(t, false, true))
            && Selects(f2, SignalsAt(t, true, false))
            && SignalStatus in f && SignalStatus in f1 && SignalStatus in f2
  {
  }

  /** It does happen, to every open signal: escalate it, close it without leaving
      the case, escalate it again, and it is in the second case although no step
      released it from the first. */
  lemma SignalMovesBetweenCases(f: Fields, t: int, c: CaseId, c': CaseId)
    requires OpenSignal(f, t)
    ensures var docs: Docs := map[0 := Doc(SignalIndex, f)];
            var escalate := Modify(SignalsAt(t, false, false), true, Some(c), {0});
            var close := Modify(SignalsAt(t, false, true), false, None, {0});
            var again := Modify(SignalsAt(t, true, false), true, Some(c'), {0});
            && AllFresh(docs)
            && InCase(Run(docs, [escalate]), 0, "signal", c)
            && InCase(Run(docs, [escalate, close, again]), 0, "signal", c')
  {
    var escalate := Modify(SignalsAt(t, false, false), true, Some(c), {0});
    var close := Modify(SignalsAt(t, false, true), false, None, {0});
    var again := Modify(SignalsAt(t, true, false), true, Some(c'), {0});
    ScriptsOfTheMove(f, t, c, c');
    var f1 := Apply(f, EscalateScript("signal", c));
    var f2 := Apply(f1, AcknowledgeScript("signal", true));
    StepOfOneSignal(f, escalate, f1);
    StepOfOneSignal(f1, close, f2);
    StepOfOneSignal(f2, again, Apply(f2, EscalateScript("signal", c')));
    RunOfThree(map[0 := Doc(SignalIndex, f)], escalate, close, again);
  }

  // ---------------------------------------------------------------------------
  // Cases
  // ---------------------------------------------------------------------------

  function Created(a: Action): Option<CaseId> {
    if a.Modify? && a.perform then a.created else None
  }

  /** The case system never issues a number twice. */
  ghost predicate FreshCases(actions: seq<Action>) {
    forall i, j | 0 <= i < j < |actions| :: Created(actions[i]).Some? ==> Created(actions[i]) != Created(actions[j])
  }

  /** The kind each case was opened for. */
  ghost function KindsOfCases(actions: seq<Action>): map<CaseId, string> {
    if actions == [] then map[]
    else
      var n := |actions| - 1;
      var kinds := KindsOfCases(actions[..n]);
      if Created(actions[n]).Some? then kinds[Created(actions[n]).value := actions[n].r.kind] else kinds
  }

  ghost predicate CasesAreOfOneKind(docs: Docs, kinds: map<CaseId, string>) {
    forall id | id in docs :: KindOk(docs[id].fields, kinds)
  }

  lemma {:induction false} IssuedEarlier(actions: seq<Action>, c: CaseId)
    ensures c in KindsOfCases(actions) <==> exists i :: 0 <= i < |actions| && Created(actions[i]) == Some(c)
  {
    if actions != [] {
      var n := |actions| - 1;
      IssuedEarlier(actions[..n], c);
      assert forall i | 0 <= i < n :: actions[..n][i] == actions[i];
    }
  }

  ghost predicate KindOk(f: Fields, kinds: map<CaseId, string>) {
    HasCase(f) ==> CaseOf(f) in kinds && Is(f, EventKind, Text(kinds[CaseOf(f)]))
  }

  /** A script gives a document a case only on escalation, and then of its kind. */
  lemma ScriptKeepsKind(docs: Docs, a: Action, f: Fields, kinds: map<CaseId, string>)
    requires UpdateSent(docs, a).Some? && KindOk(f, kinds)
    requires Matches(f, UpdateSent(docs, a).value.query)
    requires Created(a).Some? ==> Created(a).value !in kinds
    ensures KindOk(Apply(f, UpdateSent(docs, a).value.script),
                   if Created(a).Some? then kinds[Created(a).value := a.r.kind] else kinds)
  {
    var f' := Apply(f, UpdateSent(docs, a).value.script);
    if a.Modify? && a.perform {
      QuerySelects(f, ModifyRequest(a.r));
      assert f'[HiveId] == Number(a.created.value);
    } else {
      assert HasCase(f') ==> f'[HiveId] == f[HiveId];
    }
  }

  lemma StepKeepsCasesOfOneKind(docs: Docs, a: Action, kinds: map<CaseId, string>)
    requires CasesAreOfOneKind(docs, kinds)
    requires Created(a).Some? ==> Created(a).value !in kinds
    ensures CasesAreOfOneKind(Step(docs, a), if Created(a).Some? then kinds[Created(a).value := a.r.kind] else kinds)
  {
    var kinds' := if Created(a).Some? then kinds[Created(a).value := a.r.kind] else kinds;
    forall id | id in Step(docs, a)
      ensures KindOk(Step(docs, a)[id].fields, kinds')
    {
      if id in docs {
        assert KindOk(docs[id].fields, kinds);
        if UpdateSent(docs, a).Some? && Targets(UpdateSent(docs, a).value, docs[id]) {
          ScriptKeepsKind(docs, a, docs[id].fields, kinds);
        }
      }
    }
  }

  /** All documents of a case are of the kind that it was opened for. */
  lemma {:induction false} RunsKeepCasesOfOneKind(docs: Docs, actions: seq<Action>)
    requires AllFresh(docs) && FreshCases(actions)
    ensures CasesAreOfOneKind(Run(docs, actions), KindsOfCases(actions))
  {
    if actions != [] {
      var n := |actions| - 1;
      RunsKeepCasesOfOneKind(docs, actions[..n]);
      if Created(actions[n]).Some? {
        IssuedEarlier(actions[..n], Created(actions[n]).value);
      }
      StepKeepsCasesOfOneKind(Run(docs, actions[..n]), actions[n], KindsOfCases(actions[..n]));
    }
  }

  /** So the script of a removal runs on every document of the case: they are of
      the kind that the removed document was looked up by. */
  lemma RemovalFindsItsKind(docs: Docs, actions: seq<Action>, now: Docs, a: Action, id: DocId)
    requires AllFresh(docs) && FreshCases(actions) && now == Run(docs, actions)
    requires a.Remove? && UpdateSent(now, a).Some?
    requires id in now && Matches(now[id].fields, UpdateSent(now, a).value.query)
    ensures Is(now[id].fields, EventKind, Text(a.r.kind))
    ensures CanRun(now[id].fields, UpdateSent(now, a).value.script)
  {
    RunsStayConsistent(docs, actions);
    RunsKeepCasesOfOneKind(docs, actions);
    CaseQueryMatches(now[id].fields, CaseOf(now[a.hit.value].fields));
    QuerySelects(now[a.hit.value].fields, a.r);
    assert KindOk(now[id].fields, KindsOfCases(actions)) && KindOk(now[a.hit.value].fields, KindsOfCases(actions));
    assert Consistent(now[id].fields);
  }

  lemma ReleasedDocument(f: Fields, kind: string)
    requires ValidKind(kind) && Is(f, EventKind, Text(kind))
    ensures var f' := Apply(f, ReleaseScript(kind));
            && HiveId !in f' && !IsEscalated(f') && IsAcknowledged(f')
            && (Is(f', EventKind, Text("signal")) ==> Is(f', SignalStatus, Text("closed")))
  {
  }

  lemma StepAt(docs: Docs, a: Action, id: DocId)
    requires !a.Ingest? && UpdateSent(docs, a).Some? && id in docs && id in a.reached
    requires Targets(UpdateSent(docs, a).value, docs[id]) && CanRun(docs[id].fields, UpdateSent(docs, a).value.script)
    ensures Step(docs, a)[id].fields == Apply(docs[id].fields, UpdateSent(docs, a).value.script)
  {
  }

  /** A removal that reaches them all leaves the case empty, and the documents
      acknowledged, unescalated and, if they are signals, closed. */
  lemma RemovalEmptiesTheCase(docs: Docs, actions: seq<Action>, now: Docs, a: Action, id: DocId)
    requires AllFresh(docs) && FreshCases(actions) && now == Run(docs, actions)
    requires a.Remove? && UpdateSent(now, a).Some?
    requires id in now && id in a.reached && Matches(now[id].fields, UpdateSent(now, a).value.query)
    ensures var f := Step(now, a)[id].fields;
            && HiveId !in f && !IsEscalated(f) && IsAcknowledged(f)
            && (Is(f, EventKind, Text("signal")) ==> Is(f, SignalStatus, Text("closed")))
  {
    RemovalFindsItsKind(docs, actions, now, a, id);
    ReleasedDocument(now[id].fields, a.r.kind);
    assert now[id].index == Filebeat || now[id].index == SignalIndex;
    StepAt(now, a, id);
  }

  // ---------------------------------------------------------------------------
  // Classes
  // ---------------------------------------------------------------------------

  /** The classes of alerts: of the eight requests with the same scope, a document in
      scope is selected by exactly the one with its own flags, and one out of scope
      by none. */
  lemma AlertClassesPartition(f: Fields, r: Request)
    requires r.kind == "alert"
    ensures var selecting := set a: bool, e: bool, s: bool |
                               Selects(f, r.(acknowledged := a, escalated := e, showClosed := s)) :: (a, e, s);
            selecting == if InScope(f, r)
                         then {(Is(f, Acknowledged, Flag(true)), Is(f, Escalated, Flag(true)),
                                Is(f, HiveStatus, Text("Resolved")))}
                         else {}
  {
    forall a: bool, e: bool, s: bool
      ensures Selects(f, r.(acknowledged := a, escalated := e, showClosed := s))
         <==> (InScope(f, r) && a == IsAcknowledged(f) && e == IsEscalated(f) && s == Resolved(f))
    {
      assert InScope(f, r.(acknowledged := a, escalated := e, showClosed := s)) <==> InScope(f, r);
      assert |r.kind| != |"signal"|;
    }
    var selecting := set a: bool, e: bool, s: bool |
                       Selects(f, r.(acknowledged := a, escalated := e, showClosed := s)) :: (a, e, s);
    if InScope(f, r) {
      assert selecting == {(IsAcknowledged(f), IsEscalated(f), Resolved(f))};
    } else {
      assert selecting == {};
    }
  }

  /** The classes of signals that are not resolved: one request for each status
      that a signal can have, and the fourth combination of flags selects
      nothing. */
  lemma SignalClassesPartition(f: Fields, r: Request)
    requires r.kind == "signal" && !r.showClosed
    ensures var selecting := set a: bool, e: bool | Selects(f, r.(acknowledged := a, escalated := e)) :: (a, e);
            selecting == if !InScope(f, r) || Is(f, HiveStatus, Text("Resolved")) || Is(f, OriginalKind, Text("alert"))
                         then {}
                         else if Is(f, SignalStatus, Text("open")) then {(false, false)}
                         else if Is(f, SignalStatus, Text("closed")) then {(true, false)}
                         else if Is(f, SignalStatus, Text("in-progress")) then {(false, true)}
                         else {}
  {
    assert "open" != "closed" && |"in-progress"| != |"closed"| && |"in-progress"| != |"open"|;
  }

  /** The classes of signals that are resolved overlap: a closed one is selected by
      every combination of flags but the one with neither, and others by none. */
  lemma ResolvedSignalClasses(f: Fields, r: Request)
    requires r.kind == "signal" && r.showClosed
    ensures var selecting := set a: bool, e: bool | Selects(f, r.(acknowledged := a, escalated := e)) :: (a, e);
            selecting == if InScope(f, r) && Is(f, HiveStatus, Text("Resolved"))
                            && !Is(f, OriginalKind, Text("alert")) && Is(f, SignalStatus, Text("closed"))
                         then {(true, false), (false, true), (true, true)} else {}
  {
    assert "open" != "closed";
  }

  /** The further clauses of a request do not stand in the way of a script: those
      that ask for a field that it sets ask for the value that it sets, and none
      of the others excludes such a value. */
  predicate ClausesAllow(r: Request, s: Script) {
    && (forall c | c in r.extraMust :: c.Match? && c.field in s.sets ==> s.sets[c.field] == c.value)
    && (forall c | c in r.extraMustNot :: c.Match? && c.field in s.sets ==> s.sets[c.field] != c.value)
  }

  /** The script of a modify step that does not escalate. */
  function FlagScript(r: Request): Script { AcknowledgeScript(r.kind, !r.acknowledged) }

  /** The class that such a step moves documents to: the flag is turned over; a
      signal that was escalated gets the status of those that are not. */
  function FlippedRequest(r: Request): Request {
    r.(acknowledged := !r.acknowledged, escalated := r.escalated && r.kind != "signal")
  }

  lemma ClauseAfter(f: Fields, s: Script, c: Clause)
    requires s.removes == {} && Timestamp !in s.sets
    ensures Holds(Apply(f, s), c) <==> if c.Match? && c.field in s.sets then s.sets[c.field] == c.value else Holds(f, c)
  {
  }

  /** The scope that is left is decided by the clauses alone. */
  lemma ScopeAfter(f: Fields, r: Request)
    requires ValidKind(r.kind) && InScope(f, r)
    ensures InScope(Apply(f, FlagScript(r)), FlippedRequest(r)) <==> ClausesAllow(r, FlagScript(r))
    ensures Resolved(Apply(f, FlagScript(r))) <==> Resolved(f)
    ensures Native(Apply(f, FlagScript(r))) <==> Native(f)
  {
    forall c {
      ClauseAfter(f, FlagScript(r), c);
    }
  }

  /** A selected document leaves its class, and it gets to the other one if and
      only if the further clauses allow the script. */
  lemma AcknowledgingFlipsTheClass(f: Fields, r: Request)
    requires ValidKind(r.kind) && !r.showClosed && Selects(f, r)
    ensures var s := FlagScript(r);
            && CanRun(f, s) && !Selects(Apply(f, s), r)
            && (Selects(Apply(f, s), FlippedRequest(r)) <==> ClausesAllow(r, s))
            && (r.kind == "signal" && r.escalated ==> !Selects(Apply(f, s), r.(acknowledged := !r.acknowledged)))
  {
    ScopeAfter(f, r);
    assert "open" != "closed" && |"in-progress"| != |"closed"|;
  }

  predicate Mentions(cs: seq<Clause>, field: Field) {
    exists c | c in cs :: c.Match? && c.field == field
  }

  predicate Excludes(cs: seq<Clause>, field: Field, v: Value) { Match(field, v) in cs }

  /** For alerts that is so if and only if no further clause asks for the flag and
      none excludes its new value. */
  lemma AlertFlipsIff(f: Fields, r: Request)
    requires r.kind == "alert" && !r.showClosed && Selects(f, r)
    ensures Selects(Apply(f, FlagScript(r)), FlippedRequest(r))
       <==> !Mentions(r.extraMust, Acknowledged) && !Excludes(r.extraMustNot, Acknowledged, Flag(!r.acknowledged))
  {
    AcknowledgingFlipsTheClass(f, r);
    assert |r.kind| != |"signal"|;
    assert FlagScript(r).sets == map[Acknowledged := Flag(!r.acknowledged)];
    forall c | c in r.extraMust && c.Match? && c.field == Acknowledged
      ensures c.value != Flag(!r.acknowledged)
    {
      assert Holds(f, c);
    }
  }

  /** For signals if and only if none asks for the status, those that ask for the
      flag ask for its new value, and none excludes the new flag or status. */
  lemma SignalFlipsIff(f: Fields, r: Request)
    requires r.kind == "signal" && !r.showClosed && Selects(f, r)
    ensures var to := if r.acknowledged then "open" else "closed";
            Selects(Apply(f, FlagScript(r)), FlippedRequest(r)) <==>
            (&& !Mentions(r.extraMust, SignalStatus)
             && (Mentions(r.extraMust, Acknowledged) ==> Is(f, Acknowledged, Flag(!r.acknowledged)))
             && !Excludes(r.extraMustNot, Acknowledged, Flag(!r.acknowledged))
             && !Excludes(r.extraMustNot, SignalStatus, Text(to)))
  {
    var to := if r.acknowledged then "open" else "closed";
    AcknowledgingFlipsTheClass(f, r);
    assert "open" != "closed" && |"in-progress"| != |"closed"| && |"in-progress"| != |"open"|;
    assert FlagScript(r).sets == map[Acknowledged := Flag(!r.acknowledged), SignalStatus := Text(to)];
    forall c | c in r.extraMust && c.Match? && c.field == SignalStatus
      ensures c.value != Text(to)
    {
      assert Holds(f, c);
    }
    forall c | c in r.extraMust && c.Match? && c.field == Acknowledged
      ensures c.value == Flag(!r.acknowledged) <==> Is(f, Acknowledged, Flag(!r.acknowledged))
    {
      assert Holds(f, c);
    }
  }

  /** It does fail: grouped by its status, an open signal that is closed is gone
      from the closed ones that have this further clause. */
  lemma StatusClauseLosesSignal(f: Fields, t: int)
    requires OpenSignal(f, t)
    ensures var r := SignalsAt(t, false, false).(extraMust := [Match(SignalStatus, Text("open"))]);
            Selects(f, r) && !Selects(Apply(f, FlagScript(r)), FlippedRequest(r))
  {
    var r := SignalsAt(t, false, false).(extraMust := [Match(SignalStatus, Text("open"))]);
    AllOne(f, Match(SignalStatus, Text("open")));
    assert Selects(f, r);
    assert Match(SignalStatus, Text("open")) in r.extraMust;
    SignalFlipsIff(f, r);
  }

  /** The documents of the kind's index that a request selects. */
  function Class(docs: Docs, r: Request): set<DocId> {
    set id | id in docs && docs[id].index in ModifyIndices(r.kind) && Selects(docs[id].fields, r)
  }

  /** On the whole store: a modify step that does not escalate takes exactly the
      documents it reached out of the class that it selects, changes no other, and
      puts them into the other class if and only if the further clauses allow it. */
  lemma ModifyMovesTheClass(docs: Docs, r: Request, reached: set<DocId>)
    requires ValidKind(r.kind) && !r.showClosed
    ensures var docs', other := Step(docs, Modify(r, false, None, reached)), FlippedRequest(r);
            && Class(docs', r) == Class(docs, r) - reached
            && Class(docs', other)
               == Class(docs, other) + (if ClausesAllow(r, FlagScript(r)) then Class(docs, r) * reached else {})
            && docs'.Keys == docs.Keys
            && forall id | id in docs && id !in Class(docs, r) * reached :: docs'[id] == docs[id]
  {
    var docs', other := Step(docs, Modify(r, false, None, reached)), FlippedRequest(r);
    assert ModifyRequest(r) == r;
    forall id | id in docs
      ensures if id in Class(docs, r) * reached
              then && docs'[id].index == docs[id].index
                   && !Selects(docs'[id].fields, r) && !Selects(docs[id].fields, other)
                   && (Selects(docs'[id].fields, other) <==> ClausesAllow(r, FlagScript(r)))
              else docs'[id] == docs[id]
    {
      QuerySelects(docs[id].fields, r);
      if Selects(docs[id].fields, r) {
        AcknowledgingFlipsTheClass(docs[id].fields, r);
        ClassesExclude(docs[id].fields, r);
      }
    }
  }

  lemma ClassesExclude(f: Fields, r: Request)
    requires ValidKind(r.kind) && !r.showClosed && Selects(f, r)
    ensures !Selects(f, FlippedRequest(r))
  {
    assert "open" != "closed" && |"in-progress"| != |"closed"| && |"in-progress"| != |"open"|;
  }

  /** The script that a modify step sends. */
  function ModifyScript(r: Request, perform: bool, created: Option<CaseId>): Script
    requires perform ==> created.Some?
  {
    if perform then EscalateScript(r.kind, created.value) else FlagScript(r)
  }

  lemma SelectedCanRun(f: Fields, r: Request, perform: bool, created: Option<CaseId>)
    requires Selects(f, r) && (perform ==> created.Some?)
    ensures CanRun(f, ModifyScript(r, perform, created))
  {
  }

  /** A modify step rewrites exactly those documents of the class that it reaches. */
  lemma ModifyRewritesTheClass(docs: Docs, r: Request, perform: bool, created: Option<CaseId>, reached: set<DocId>)
    requires ValidKind(r.kind) && !r.showClosed && (perform ==> created.Some? && !r.escalated)
    ensures var after, script := Step(docs, Modify(r, perform, created, reached)), ModifyScript(r, perform, created);
            && after.Keys == docs.Keys
            && forall id | id in docs ::
                 after[id] == if id in Class(docs, r) && id in reached
                              then docs[id].(fields := Apply(docs[id].fields, script)) else docs[id]
  {
    assert ModifyRequest(r) == r;
    var u := UpdateSent(docs, Modify(r, perform, created, reached)).value;
    assert u == Update(ModifyIndices(r.kind), QueryOf(r), ModifyScript(r, perform, created));
    forall id | id in docs
      ensures Targets(u, docs[id]) <==> id in Class(docs, r)
      ensures id in Class(docs, r) ==> CanRun(docs[id].fields, u.script)
    {
      QuerySelects(docs[id].fields, r);
      if id in Class(docs, r) {
        SelectedCanRun(docs[id].fields, r, perform, created);
      }
    }
  }
}
