/** Page life cycle and page ownership (page.rs). */
module Page {
  datatype PageState =
    | Free
    | HbmMutable
    | HbmTentative
    | HbmSealed
    | DramWriting
    | DramResident
    | NvmeWriting
    | NvmeResident
    | Restoring
    | Invalid

  /** The legal moves of the page life cycle. */
  predicate LegalTransition(from: PageState, to: PageState) {
    match from
    case Free => to.HbmMutable?
    case HbmMutable => to.HbmTentative? || to.HbmSealed? || to.Invalid?
    case HbmTentative => to.HbmMutable? || to.HbmSealed? || to.Invalid?
    case HbmSealed => to.DramWriting? || to.Invalid?
    case DramWriting => to.DramResident? || to.Invalid?
    case DramResident => to.NvmeWriting? || to.Restoring? || to.Invalid?
    case NvmeWriting => to.NvmeResident? || to.Invalid?
    case NvmeResident => to.Restoring? || to.Invalid?
    case Restoring => to.HbmSealed? || to.Invalid?
    case Invalid => to.Free?
  }

  /** Pages are dealt to the four ranks in rotation. */
  function OwnerRank(ordinal: nat): (rank: nat)
    ensures rank < 4
  {
    ordinal % 4
  }
}
