/** What several components say about groups. */
module Groups {
  datatype Status =
    | Unresolved | Resolved | Ignored | PendingDeletion | DeletionInProgress | PendingMerge | Reprocessing
}
