/**
  The dataset store (`useDatasetStore`): the list of datasets, the current
  dataset, and the three operations that replace them. Only `datasets` is
  persisted.
 */
module DatasetStore {
  import opened Common
  import opened DataModel

  /** No two datasets share an id (ids come from `crypto.randomUUID`). */
  ghost predicate UniqueIds(ds: seq<Dataset>)
  {
    forall i, j :: 0 <= i < j < |ds| ==> ds[i].id != ds[j].id
  }

  /** `datasets.find(d => d.id === id)`: the first dataset with that id. */
  function FindById(ds: seq<Dataset>, id: string): (r: Option<Dataset>)
    ensures r.None? <==> forall i :: 0 <= i < |ds| ==> ds[i].id != id
    ensures r.Some? ==> r.value in ds && r.value.id == id
    ensures forall i :: 0 <= i < |ds| && ds[i].id == id && (forall j :: 0 <= j < i ==> ds[j].id != id) ==> r == Some(ds[i])
  {
    if ds == [] then None
    else if ds[0].id == id then Some(ds[0])
    else
      var r := FindById(ds[1..], id);
      assert forall i :: 1 <= i < |ds| ==> ds[i] == ds[1..][i - 1];
      r
  }

  /** With unique ids, the dataset found for an id is the one holding it. */
  lemma FindByUniqueId(ds: seq<Dataset>, k: nat)
    requires UniqueIds(ds) && k < |ds|
    ensures FindById(ds, ds[k].id) == Some(ds[k])
  {
    assert forall j :: 0 <= j < k ==> ds[j].id != ds[k].id;
  }

  /** The `filter` callback of a deletion: the record does not hold the id. */
  function KeepsOtherId(id: string): Dataset -> bool
  {
    (d: Dataset) => d.id != id
  }

  /** `datasets.filter(d => d.id !== id)`. */
  function RemoveId(ds: seq<Dataset>, id: string): (r: seq<Dataset>)
    ensures forall d :: d in r <==> d in ds && d.id != id
    ensures IsSubseq(r, ds)
  {
    Filter(ds, KeepsOtherId(id))
  }

  /** Every record with another id is kept exactly once, in order: the k-th kept is the k-th such record. */
  lemma RemoveIdOrder(ds: seq<Dataset>, id: string)
    ensures exists idx :: (IsPositions(idx, ds, KeepsOtherId(id)) && |idx| == |RemoveId(ds, id)| &&
      forall k :: 0 <= k < |idx| ==> RemoveId(ds, id)[k] == ds[idx[k]])
  {
    FilterPositions(ds, KeepsOtherId(id));
  }

  /** Removing an id that no dataset holds changes nothing. */
  lemma RemoveAbsent(ds: seq<Dataset>, id: string)
    requires FindById(ds, id).None?
    ensures RemoveId(ds, id) == ds
  {
  }

  /** Deleting twice is deleting once. */
  lemma RemoveTwice(ds: seq<Dataset>, id: string)
    ensures RemoveId(RemoveId(ds, id), id) == RemoveId(ds, id)
  {
    FilterIdempotent(ds, KeepsOtherId(id));
  }

  /** Deleting the dataset just added restores the list it was added to. */
  lemma RemoveUndoesAppend(ds: seq<Dataset>, d: Dataset)
    requires FindById(ds, d.id).None?
    ensures RemoveId(ds + [d], d.id) == ds
  {
    var p := (e: Dataset) => e.id != d.id;
    FilterAppend(ds, [d], p);
    assert Filter([d], p) == [];
  }

  lemma {:induction false} SubseqKeepsIdsUnique(a: seq<Dataset>, b: seq<Dataset>)
    requires IsSubseq(a, b) && UniqueIds(b)
    ensures UniqueIds(a)
    decreases |b|
  {
    if a != [] {
      if a[0] == b[0] && IsSubseq(a[1..], b[1..]) {
        SubseqKeepsIdsUnique(a[1..], b[1..]);
        SubseqBounds(a[1..], b[1..]);
        forall i, j | 0 <= i < j < |a| ensures a[i].id != a[j].id {
          assert a[j] == a[1..][j - 1];
          if i == 0 {
            assert a[j] in b[1..];
            var k :| 0 <= k < |b[1..]| && b[1..][k] == a[j];
            assert b[k + 1] == a[j];
          } else {
            assert a[i] == a[1..][i - 1];
          }
        }
      } else {
        SubseqKeepsIdsUnique(a, b[1..]);
      }
    }
  }

  /** What the `persist` middleware writes: `partialize` keeps only `datasets`. */
  datatype PersistedState = PersistedState(datasets: seq<Dataset>)

  class Store {
    var datasets: seq<Dataset>
    var currentDataset: Option<Dataset>
    var isLoading: bool
    var error: Option<string>

    /** Ids are unique, and the current dataset is one of the datasets. */
    ghost predicate Valid()
      reads this
    {
      UniqueIds(datasets) && (currentDataset.Some? ==> currentDataset.value in datasets)
    }

    /** The initial state. */
    constructor ()
      ensures Valid()
      ensures datasets == [] && currentDataset == None && !isLoading && error == None
    {
      datasets := [];
      currentDataset := None;
      isLoading := false;
      error := None;
    }

    /** The state after reloading: the persisted datasets over the initial state. */
    constructor Rehydrate(saved: PersistedState)
      requires UniqueIds(saved.datasets)
      ensures Valid()
      ensures datasets == saved.datasets && currentDataset == None && !isLoading && error == None
    {
      datasets := saved.datasets;
      currentDataset := None;
      isLoading := false;
      error := None;
    }

    /** `partialize`: what is written to storage. */
    function Partialize(): (p: PersistedState)
      reads this
      ensures p.datasets == datasets
    {
      PersistedState(datasets)
    }

    /** `addDataset`: append the record under a fresh id and make it current. */
    method AddDataset(draft: DatasetDraft, id: string)
      requires Valid()
      requires FindById(datasets, id).None?
      modifies this
      ensures Valid()
      ensures datasets == old(datasets) + [WithId(draft, id)]
      ensures currentDataset == Some(WithId(draft, id))
      ensures isLoading == old(isLoading) && error == old(error)
    {
      var d := WithId(draft, id);
      datasets := datasets + [d];
      currentDataset := Some(d);
    }

    /** `setCurrentDataset`: select the first dataset with the id; an unknown id changes nothing. */
    method SetCurrentDataset(id: string)
      requires Valid()
      modifies this
      ensures Valid()
      ensures datasets == old(datasets) && isLoading == old(isLoading) && error == old(error)
      ensures FindById(datasets, id).Some? ==> currentDataset == FindById(datasets, id)
      ensures FindById(datasets, id).None? ==> currentDataset == old(currentDataset)
    {
      var found := FindById(datasets, id);
      if found.Some? {
        currentDataset := found;
      }
    }

    /** `deleteDataset`: drop every dataset with the id; clear the current one if it had it. */
    method DeleteDataset(id: string)
      requires Valid()
      modifies this
      ensures Valid()
      ensures datasets == RemoveId(old(datasets), id)
      ensures old(currentDataset).Some? && old(currentDataset).value.id == id ==> currentDataset == None
      ensures !(old(currentDataset).Some? && old(currentDataset).value.id == id) ==> currentDataset == old(currentDataset)
      ensures isLoading == old(isLoading) && error == old(error)
    {
      SubseqKeepsIdsUnique(RemoveId(datasets, id), datasets);
      datasets := RemoveId(datasets, id);
      if currentDataset.Some? && currentDataset.value.id == id {
        currentDataset := None;
      }
    }
  }

  /** Reloading the page restores the saved datasets and nothing else. */
  method Reload(s: Store) returns (t: Store)
    requires s.Valid()
    ensures fresh(t) && t.Valid()
    ensures t.datasets == s.datasets && t.currentDataset == None
  {
    t := new Store.Rehydrate(s.Partialize());
  }
}
