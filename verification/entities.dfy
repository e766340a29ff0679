/** The persisted entity kinds of the analysis database, one per model class. */
module Entities {

  datatype EntityKind =
    | Issue
    | IssueInstance
    | IssueInstanceFixInfo
    | SharedText
    | Postcondition
    | Precondition
    | Run
    | Sink
    | Source
    | TraceFrame
    | TraceFrameAnnotation
    | IssueInstanceTraceFrameAssoc
    | IssueInstancePostconditionAssoc
    | IssueInstancePreconditionAssoc
    | IssueInstanceSharedTextAssoc
    | TraceFrameLeafAssoc
    | PostconditionSourceAssoc
    | PreconditionSinkAssoc
    | PrimaryKey

  /** The kinds whose primary keys the key generator hands out itself
      (`QUERY_CLASSES`); every other kind relies on the store to pick ids. */
  predicate IsQueryClass(k: EntityKind) {
    || k.Issue? || k.IssueInstance? || k.IssueInstanceFixInfo? || k.SharedText?
    || k.Postcondition? || k.Precondition? || k.Run? || k.Sink? || k.Source?
    || k.TraceFrame? || k.TraceFrameAnnotation?
  }

  /** How a kind's `merge` treats a batch before `prepare` writes it. */
  datatype Merging =
    | NotPrepared    // not written through `prepare`
    | KeepAll        // the default `merge`: every record, in order
    | ByKeys         // `_merge_by_keys` on the contents and kind
    | ByName         // `_merge_by_key` on the name
    | ByHandle       // `Issue.merge`, on the handle
    | MarkNewIssue   // `IssueInstance.merge`: every record, flagged from its issue
    | ByAssociation  // `_merge_assocs` on the two resolved foreign keys

  function MergingOf(k: EntityKind): Merging {
    match k
    case Run => NotPrepared
    case SharedText => ByKeys
    case Sink => ByName
    case Source => ByName
    case Issue => ByHandle
    case IssueInstance => MarkNewIssue
    case IssueInstanceTraceFrameAssoc => ByAssociation
    case IssueInstancePostconditionAssoc => ByAssociation
    case IssueInstancePreconditionAssoc => ByAssociation
    case IssueInstanceSharedTextAssoc => ByAssociation
    case TraceFrameLeafAssoc => ByAssociation
    case PostconditionSourceAssoc => ByAssociation
    case PreconditionSinkAssoc => ByAssociation
    case _ => KeepAll
  }

  /** The kind has an `id` placeholder column; association rows and the
      counter rows are keyed by other columns. */
  predicate HasId(k: EntityKind) {
    !(MergingOf(k).ByAssociation? || k.PrimaryKey?)
  }

  /** `prepare` asks the generator for an id for every record of the kind. */
  predicate DrawsIds(k: EntityKind) {
    !MergingOf(k).NotPrepared? && HasId(k)
  }

  /** Every kind `prepare` draws ids for is one the generator manages, and the
      generator manages no other kind except runs, which are not written
      through `prepare`. */
  lemma PrepareDrawsManagedKinds(k: EntityKind)
    ensures DrawsIds(k) ==> IsQueryClass(k)
    ensures IsQueryClass(k) ==> DrawsIds(k) || k == Run
  {
  }
}
