/** What the steps of the alert life cycle write into the documents.

    Each step is described by the fields that a document has afterwards, and by the
    documents and fields that stay as they are. */
module AlertOutcomes {
  import opened AlertLifecycle
  import opened Values
  import opened Wrappers

  /** Nothing but these fields differs. */
  ghost predicate SameBut(d: Doc, d': Doc, touched: set<Field>) {
    && d'.index == d.index
    && forall x | x !in touched ::
         (x in d.fields <==> x in d'.fields) && (x in d.fields ==> d'.fields[x] == d.fields[x])
  }

  ghost predicate OfCase(d: Doc, c: CaseId) { HasCase(d.fields) && CaseOf(d.fields) == c }

  /** A script for this kind runs: the one for signals needs a status to assign. */
  ghost predicate Fits(d: Doc, kind: string) { kind == "signal" ==> SignalStatus in d.fields }

  /** The status that a script for this kind sets, if it is for signals. */
  ghost predicate StatusIs(d: Doc, kind: string, status: string) {
    kind == "signal" ==> Is(d.fields, SignalStatus, Text(status))
  }

  ghost function StatusOf(kind: string): set<Field> { if kind == "signal" then {SignalStatus} else {} }

  // ---------------------------------------------------------------------------
  // Changes of a case
  // ---------------------------------------------------------------------------

  /** The document has what the case system reported; a resolved case closes its
      signals and any other status has them in progress. */
  ghost predicate TellsCase(d: Doc, d': Doc, kind: string, status: string, resolution: string, impact: string) {
    && Is(d'.fields, HiveStatus, Text(status))
    && Is(d'.fields, HiveResolution, Text(resolution))
    && Is(d'.fields, HiveImpact, Text(impact))
    && StatusIs(d', kind, if status == "Resolved" then "closed" else "in-progress")
    && SameBut(d, d', {HiveStatus, HiveResolution, HiveImpact} + StatusOf(kind))
  }

  /** The document is out of its case: acknowledged, not escalated, and closed if the
      script is for signals. */
  ghost predicate TakenOut(d: Doc, d': Doc, kind: string) {
    && HiveId !in d'.fields && HiveStatus !in d'.fields && HiveResolution !in d'.fields && HiveImpact !in d'.fields
    && Is(d'.fields, Acknowledged, Flag(true)) && Is(d'.fields, Escalated, Flag(false))
    && StatusIs(d', kind, "closed")
    && SameBut(d, d', {HiveId, HiveStatus, HiveResolution, HiveImpact, Acknowledged, Escalated} + StatusOf(kind))
  }

  function Rewritten(d: Doc, s: Script): Doc { d.(fields := Apply(d.fields, s)) }

  lemma ReleaseTakesOut(d: Doc, kind: string)
    ensures TakenOut(d, Rewritten(d, ReleaseScript(kind)), kind)
  {
  }

  lemma UpdateTells(d: Doc, kind: string, status: string, resolution: string, impact: string)
    ensures TellsCase(d, Rewritten(d, CaseUpdateScript(kind, status, resolution, impact)), kind,
                      status, resolution, impact)
  {
  }

  /** An update that is sent to all indices for a case targets its documents. */
  lemma TargetsOfCase(u: Update, d: Doc, c: CaseId)
    requires u.query == CaseQuery(c) && u.indices == ALL_INDICES
    ensures Targets(u, d) <==> OfCase(d, c)
  {
    CaseQueryMatches(d.fields, c);
    assert d.index == Filebeat || d.index == SignalIndex;
  }

  /** A webhook step rewrites exactly the documents of its case that it reaches and
      that its script fits, wherever they are, and leaves all others alone. */
  lemma WebhookWrites(docs: Docs, a: Action)
    requires a.Webhook?
    ensures var docs' := Step(docs, a);
            && docs'.Keys == docs.Keys
            && forall id | id in docs ::
                 if id in a.reached && OfCase(docs[id], a.caseId) && Fits(docs[id], a.kind) then
                   if a.delete then TakenOut(docs[id], docs'[id], a.kind)
                   else TellsCase(docs[id], docs'[id], a.kind, a.status, a.resolution, a.impact)
                 else docs'[id] == docs[id]
  {
    var u := UpdateSent(docs, a).value;
    forall id | id in docs
      ensures Targets(u, docs[id]) <==> OfCase(docs[id], a.caseId)
      ensures CanRun(docs[id].fields, u.script) <==> Fits(docs[id], a.kind)
      ensures if a.delete then TakenOut(docs[id], Rewritten(docs[id], u.script), a.kind)
              else TellsCase(docs[id], Rewritten(docs[id], u.script), a.kind, a.status, a.resolution, a.impact)
    {
      TargetsOfCase(u, docs[id], a.caseId);
      if a.delete {
        ReleaseTakesOut(docs[id], a.kind);
      } else {
        UpdateTells(docs[id], a.kind, a.status, a.resolution, a.impact);
      }
    }
  }

  lemma ToldOfCase(d: Doc, d': Doc, kind: string, status: string, resolution: string, impact: string)
    requires TellsCase(d, d', kind, status, resolution, impact)
    ensures Resolved(d'.fields) <==> status == "Resolved"
    ensures forall c :: OfCase(d', c) <==> OfCase(d, c)
    ensures IsEscalated(d'.fields) <==> IsEscalated(d.fields)
  {
  }

  /** So a case update resolves the documents that it rewrites, or opens them again,
      and none of them changes its case. */
  lemma UpdateResolves(docs: Docs, a: Action, id: DocId)
    requires a.Webhook? && !a.delete && id in docs && id in a.reached
    requires OfCase(docs[id], a.caseId) && Fits(docs[id], a.kind)
    ensures Resolved(Step(docs, a)[id].fields) <==> a.status == "Resolved"
    ensures OfCase(Step(docs, a)[id], a.caseId)
    ensures IsEscalated(Step(docs, a)[id].fields) <==> IsEscalated(docs[id].fields)
  {
    WebhookWrites(docs, a);
    ToldOfCase(docs[id], Step(docs, a)[id], a.kind, a.status, a.resolution, a.impact);
  }

  /** The removal goes through: the search's first hit is a document that the request
      selects, with its flags and closed or not as it says, the document is in the
      case, and the case could be deleted. */
  ghost predicate Removes(docs: Docs, a: Action, c: CaseId)
    requires a.Remove?
  {
    && ValidKind(a.r.kind) && a.hit.Some? && a.hit.value in docs
    && Selects(docs[a.hit.value].fields, a.r) && OfCase(docs[a.hit.value], c) && a.deleted
  }

  /** A removal takes out exactly the documents of that case, and without it nothing
      changes. */
  lemma RemovalWrites(docs: Docs, a: Action)
    requires a.Remove?
    ensures UpdateSent(docs, a).Some? <==> exists c :: Removes(docs, a, c)
    ensures var docs' := Step(docs, a);
            && docs'.Keys == docs.Keys
            && forall id | id in docs ::
                 if id in a.reached && HasCase(docs[id].fields) && Removes(docs, a, CaseOf(docs[id].fields))
                    && Fits(docs[id], a.r.kind)
                 then TakenOut(docs[id], docs'[id], a.r.kind)
                 else docs'[id] == docs[id]
  {
    if a.hit.Some? && a.hit.value in docs {
      QuerySelects(docs[a.hit.value].fields, a.r);
    }
    if UpdateSent(docs, a).Some? {
      var c, u := CaseOf(docs[a.hit.value].fields), UpdateSent(docs, a).value;
      assert Removes(docs, a, c);
      forall id | id in docs
        ensures Targets(u, docs[id]) <==> OfCase(docs[id], c)
        ensures CanRun(docs[id].fields, u.script) <==> Fits(docs[id], a.r.kind)
        ensures TakenOut(docs[id], Rewritten(docs[id], u.script), a.r.kind)
      {
        TargetsOfCase(u, docs[id], c);
        ReleaseTakesOut(docs[id], a.r.kind);
      }
    }
  }

  // ---------------------------------------------------------------------------
  // Acknowledging and escalating
  // ---------------------------------------------------------------------------

  /** What a modify step searches: what is not closed, in the index of its kind. */
  ghost predicate IsModified(d: Doc, r: Request) {
    && Selects(d.fields, r.(showClosed := false))
    && d.index == if r.kind == "signal" then SignalIndex else Filebeat
  }

  ghost predicate PutIntoCase(d: Doc, d': Doc, kind: string, c: CaseId) {
    && Is(d'.fields, Escalated, Flag(true)) && Is(d'.fields, HiveId, Number(c))
    && StatusIs(d', kind, "in-progress")
    && SameBut(d, d', {Escalated, HiveId} + StatusOf(kind))
  }

  ghost predicate FlagTurned(d: Doc, d': Doc, r: Request) {
    && Is(d'.fields, Acknowledged, Flag(!r.acknowledged))
    && StatusIs(d', r.kind, if r.acknowledged then "open" else "closed")
    && SameBut(d, d', {Acknowledged} + StatusOf(r.kind))
  }

  lemma EscalationPuts(d: Doc, kind: string, c: CaseId)
    ensures PutIntoCase(d, Rewritten(d, EscalateScript(kind, c)), kind, c)
  {
  }

  lemma AcknowledgementTurns(d: Doc, r: Request)
    ensures FlagTurned(d, Rewritten(d, AcknowledgeScript(r.kind, !r.acknowledged)), r)
  {
  }

  lemma TargetsOfModify(docs: Docs, a: Action, d: Doc)
    requires a.Modify? && UpdateSent(docs, a).Some?
    ensures Targets(UpdateSent(docs, a).value, d) <==> IsModified(d, a.r)
    ensures IsModified(d, a.r) ==> CanRun(d.fields, UpdateSent(docs, a).value.script)
  {
    QuerySelects(d.fields, ModifyRequest(a.r));
  }

  /** A modify step does nothing if its kind is unknown, if the case could not be
      made, or if it is to escalate what is escalated; otherwise it rewrites exactly
      the documents of its class that it reaches. */
  lemma ModifyWrites(docs: Docs, a: Action)
    requires a.Modify?
    ensures var docs', goes := Step(docs, a), ValidKind(a.r.kind) && (a.perform ==> a.created.Some? && !a.r.escalated);
            && (UpdateSent(docs, a).Some? <==> goes)
            && docs'.Keys == docs.Keys
            && forall id | id in docs ::
                 if goes && id in a.reached && IsModified(docs[id], a.r) then
                   if a.perform then PutIntoCase(docs[id], docs'[id], a.r.kind, a.created.value)
                   else FlagTurned(docs[id], docs'[id], a.r)
                 else docs'[id] == docs[id]
  {
    if UpdateSent(docs, a).Some? {
      var u := UpdateSent(docs, a).value;
      forall id | id in docs
        ensures Targets(u, docs[id]) <==> IsModified(docs[id], a.r)
        ensures IsModified(docs[id], a.r) ==> CanRun(docs[id].fields, u.script)
        ensures if a.perform then PutIntoCase(docs[id], Rewritten(docs[id], u.script), a.r.kind, a.created.value)
                else FlagTurned(docs[id], Rewritten(docs[id], u.script), a.r)
      {
        TargetsOfModify(docs, a, docs[id]);
        if a.perform {
          EscalationPuts(docs[id], a.r.kind, a.created.value);
        } else {
          AcknowledgementTurns(docs[id], a.r);
        }
      }
    }
  }

  // ---------------------------------------------------------------------------
  // Success
  // ---------------------------------------------------------------------------

  /** A reported success means that all documents of the case were reached and fitted
      the script, or all documents of the class were reached. */
  lemma SuccessMeans(docs: Docs, a: Action)
    requires !a.Ingest? && UpdateSent(docs, a).Some?
    ensures Complete(docs, UpdateSent(docs, a).value, a.reached) <==>
            match a
            case Modify(r, _, _, reached) => forall id | id in docs && IsModified(docs[id], r) :: id in reached
            case Remove(r, hit, _, reached) =>
              forall id | id in docs && OfCase(docs[id], CaseOf(docs[hit.value].fields)) ::
                id in reached && Fits(docs[id], r.kind)
            case Webhook(c, _, kind, _, _, _, reached) =>
              forall id | id in docs && OfCase(docs[id], c) :: id in reached && Fits(docs[id], kind)
  {
    var u := UpdateSent(docs, a).value;
    forall id | id in docs
      ensures a.Modify? ==> (Targets(u, docs[id]) <==> IsModified(docs[id], a.r))
      ensures a.Modify? && IsModified(docs[id], a.r) ==> CanRun(docs[id].fields, u.script)
      ensures a.Remove? ==> (Targets(u, docs[id]) <==> OfCase(docs[id], CaseOf(docs[a.hit.value].fields)))
      ensures a.Webhook? ==> (Targets(u, docs[id]) <==> OfCase(docs[id], a.caseId))
    {
      match a
      case Modify(r, _, _, _) => TargetsOfModify(docs, a, docs[id]);
      case Remove(_, hit, _, _) => TargetsOfCase(u, docs[id], CaseOf(docs[hit.value].fields));
      case Webhook(c, _, _, _, _, _, _) => TargetsOfCase(u, docs[id], c);
    }
  }

  /** After a removal or a deletion that reports success the case is empty. */
  lemma SuccessEmptiesTheCase(docs: Docs, a: Action, c: CaseId)
    requires ReleasesCase(docs, a, c) && Complete(docs, UpdateSent(docs, a).value, a.reached)
    ensures forall id | id in Step(docs, a) :: !OfCase(Step(docs, a)[id], c)
  {
    var u := UpdateSent(docs, a).value;
    forall id | id in docs
      ensures !OfCase(Step(docs, a)[id], c)
    {
      TargetsOfCase(u, docs[id], c);
    }
  }

  // ---------------------------------------------------------------------------
  // What no step touches
  // ---------------------------------------------------------------------------

  const TOUCHED := {Acknowledged, Escalated, HiveId, HiveStatus, HiveResolution, HiveImpact, SignalStatus}

  /** Over every run, a document stays in its index and keeps its kind, its time and
      all fields other than those seven. */
  lemma {:induction false} RunsKeepTheRest(docs: Docs, actions: seq<Action>, id: DocId)
    requires id in docs
    ensures id in Run(docs, actions) && SameBut(docs[id], Run(docs, actions)[id], TOUCHED)
  {
    if actions != [] {
      var n := |actions| - 1;
      RunsKeepTheRest(docs, actions[..n], id);
      var now := Run(docs, actions[..n]);
      StepOn(now, actions[n], id);
      assert Step(now, actions[n])[id].index == now[id].index;
    }
  }
}
