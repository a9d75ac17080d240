/**
  The dataset list page: a case-insensitive search over names and
  descriptions, and a confirmation dialog in front of deletion.
 */
module DatasetList {
  import opened Common
  import opened JsString
  import opened DataModel
  import opened DatasetStore

  /**
    The search test: the lower-cased term occurs in the lower-cased name, or
    in the lower-cased description when that is a non-empty string.
   */
  predicate Matches(d: Dataset, term: string)
  {
    var t := ToLower(term);
    Includes(ToLower(d.name), t) ||
    (d.description.Some? && d.description.value != "" && Includes(ToLower(d.description.value), t))
  }

  /** The `filter` callback for a search term. */
  function MatchesTerm(term: string): Dataset -> bool
  {
    (d: Dataset) => Matches(d, term)
  }

  /** `filteredDatasets`: the matching datasets, in their original order. */
  function FilterDatasets(ds: seq<Dataset>, term: string): (r: seq<Dataset>)
    ensures forall d :: d in r <==> d in ds && Matches(d, term)
    ensures IsSubseq(r, ds)
    ensures |r| <= |ds|
  {
    Filter(ds, MatchesTerm(term))
  }

  /** Every matching dataset is listed exactly once, in store order: the k-th listed is the k-th match. */
  lemma FilterDatasetsOrder(ds: seq<Dataset>, term: string)
    ensures exists idx :: (IsPositions(idx, ds, MatchesTerm(term)) && |idx| == |FilterDatasets(ds, term)| &&
      forall k :: 0 <= k < |idx| ==> FilterDatasets(ds, term)[k] == ds[idx[k]])
  {
    FilterPositions(ds, MatchesTerm(term));
  }

  /** An empty search shows every dataset. */
  lemma EmptyTermShowsAll(ds: seq<Dataset>)
    ensures FilterDatasets(ds, "") == ds
  {
    forall i | 0 <= i < |ds| ensures Matches(ds[i], "") {
      IncludesEmpty(ToLower(ds[i].name));
    }
  }

  /** The case of the term does not matter. */
  lemma TermCaseIgnored(ds: seq<Dataset>, term: string)
    ensures FilterDatasets(ds, ToLower(term)) == FilterDatasets(ds, term)
  {
    ToLowerIdempotent(term);
    FilterCongruent(ds, MatchesTerm(ToLower(term)), MatchesTerm(term));
  }

  /** A dataset whose name holds the term is always shown. */
  lemma NameMatchShown(ds: seq<Dataset>, term: string, k: nat)
    requires k < |ds| && Includes(ToLower(ds[k].name), ToLower(term))
    ensures ds[k] in FilterDatasets(ds, term)
  {
  }

  class DatasetListPage {
    var searchTerm: string
    var deletingId: Option<string>

    constructor ()
      ensures searchTerm == "" && deletingId == None
    {
      searchTerm := "";
      deletingId := None;
    }

    /** `!!deletingId`: the confirmation dialog is open. */
    predicate DialogOpen()
      reads this
    {
      deletingId.Some? && deletingId.value != ""
    }

    /** The rows shown for the store's datasets. */
    function Visible(store: Store): (r: seq<Dataset>)
      reads this, store
      ensures IsSubseq(r, store.datasets)
      ensures forall d :: d in r <==> d in store.datasets && Matches(d, searchTerm)
    {
      FilterDatasets(store.datasets, searchTerm)
    }

    method SetSearchTerm(term: string)
      modifies this`searchTerm
      ensures searchTerm == term
    {
      searchTerm := term;
    }

    /** `confirmDelete`: remember the id and open the dialog. */
    method ConfirmDelete(id: string)
      modifies this`deletingId
      ensures deletingId == Some(id)
      ensures id != "" ==> DialogOpen()
    {
      deletingId := Some(id);
    }

    /** The Cancel button, or closing the dialog: forget the id. */
    method CancelDelete()
      modifies this`deletingId
      ensures deletingId == None && !DialogOpen()
    {
      deletingId := None;
    }

    /**
      `handleDelete`: with a remembered id, delete it from the store and
      close the dialog; without one, nothing happens.
     */
    method HandleDelete(store: Store)
      requires store.Valid()
      modifies this`deletingId, store
      ensures store.Valid()
      ensures !old(DialogOpen()) ==> deletingId == old(deletingId)
      ensures !old(DialogOpen()) ==>
        store.datasets == old(store.datasets) && store.currentDataset == old(store.currentDataset)
      ensures old(DialogOpen()) ==> deletingId == None
      ensures old(DialogOpen()) ==> store.datasets == RemoveId(old(store.datasets), old(deletingId).value)
      ensures old(DialogOpen()) ==> forall d :: d in store.datasets ==> d.id != old(deletingId).value
      ensures (old(DialogOpen()) && old(store.currentDataset).Some? &&
               old(store.currentDataset).value.id == old(deletingId).value) ==>
        store.currentDataset == None
      ensures (old(DialogOpen()) && !(old(store.currentDataset).Some? &&
               old(store.currentDataset).value.id == old(deletingId).value)) ==>
        store.currentDataset == old(store.currentDataset)
      ensures store.isLoading == old(store.isLoading) && store.error == old(store.error)
    {
      if deletingId.Some? && deletingId.value != "" {
        store.DeleteDataset(deletingId.value);
        deletingId := None;
      }
    }
  }
}
