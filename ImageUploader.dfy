/**
 * The upload list of the drawing uploader: at most four files, grown by a
 * file-picker selection and shrunk by the delete button on a preview card.
 * The list itself is the `files` cell of the page (see module Page); this
 * module holds the updaters the uploader hands to its setter, and what the
 * uploader derives from the list.
 */
module ImageUploader {

  /** The uploader keeps at most this many files. */
  const MaxFiles: nat := 4

  function Min(a: nat, b: nat): nat { if a <= b then a else b }

  /**
   * The file-change handler: a non-empty selection is appended to the
   * previous list and the whole is cut back to `MaxFiles`; an empty
   * selection (the picker was cancelled) leaves the list as it was.
   */
  function Added<T>(prev: seq<T>, selection: seq<T>): (r: seq<T>)
    ensures |selection| == 0 ==> r == prev
    ensures |selection| > 0 ==> |r| == Min(|prev| + |selection|, MaxFiles)
    ensures |selection| > 0 ==>
      forall k :: 0 <= k < |r| ==>
        r[k] == if k < |prev| then prev[k] else selection[k - |prev|]
  {
    if |selection| == 0 then prev
    else
      var joined := prev + selection;
      joined[..Min(|joined|, MaxFiles)]
  }

  /**
   * The delete handler: keeps every element whose position differs from
   * `index`, exactly as `filter((_, i) => i !== index)` does. An index that
   * names no element (negative or too large) removes nothing.
   */
  function Removed<T>(prev: seq<T>, index: int): (r: seq<T>)
    ensures 0 <= index < |prev| ==> |r| == |prev| - 1
    ensures 0 <= index < |prev| ==> forall k :: 0 <= k < index ==> r[k] == prev[k]
    ensures 0 <= index < |prev| ==> forall k :: index <= k < |r| ==> r[k] == prev[k + 1]
    ensures !(0 <= index < |prev|) ==> r == prev
    decreases |prev|
  {
    if prev == [] then []
    else (if index == 0 then [] else [prev[0]]) + Removed(prev[1..], index - 1)
  }

  /** The "next" button is disabled exactly when no file has been chosen. */
  function NextDisabled<T>(files: seq<T>): (r: bool)
    ensures r <==> files == []
  {
    |files| == 0
  }

  /** The dashed "add" tile (which holds the file input) is rendered only below the cap. */
  function AddTileShown<T>(files: seq<T>): bool
  {
    |files| < MaxFiles
  }

  /** One preview per file, in file order; `mint` stands for `URL.createObjectURL`. */
  function Previews<T, U>(files: seq<T>, mint: T -> U): (r: seq<U>)
    ensures |r| == |files|
    ensures forall k :: 0 <= k < |files| ==> r[k] == mint(files[k])
  {
    seq(|files|, k requires 0 <= k < |files| => mint(files[k]))
  }

  /** A list already at the cap is left exactly as it was by any selection. */
  lemma AddToFullIsNoop<T>(prev: seq<T>, selection: seq<T>)
    requires |prev| == MaxFiles
    ensures Added(prev, selection) == prev
  {
  }

  /** An add never alters the files that were already there (up to the cap). */
  lemma AddKeepsPrefix<T>(prev: seq<T>, selection: seq<T>)
    ensures |Added(prev, selection)| >= Min(|prev|, MaxFiles)
    ensures Added(prev, selection)[..Min(|prev|, MaxFiles)] == prev[..Min(|prev|, MaxFiles)]
  {
  }

  /** Both updaters keep the list within the cap. */
  lemma UpdatesStayWithinCap<T>(prev: seq<T>, selection: seq<T>, index: int)
    requires |prev| <= MaxFiles
    ensures |Added(prev, selection)| <= MaxFiles
    ensures |Removed(prev, index)| <= MaxFiles
  {
  }

  /**
   * The add tile is shown exactly when picking one more file would change
   * the list: below the cap the file is appended, at the cap it is dropped.
   */
  lemma AddTileMeansRoom<T>(prev: seq<T>, f: T)
    requires |prev| <= MaxFiles
    ensures AddTileShown(prev) <==> Added(prev, [f]) != prev
  {
    if AddTileShown(prev) {
      assert |Added(prev, [f])| == |prev| + 1;
    }
  }

  /** Removing a file removes exactly its preview: previews stay one per file, in order. */
  lemma {:induction false} PreviewsFollowRemove<T, U>(files: seq<T>, index: int, mint: T -> U)
    ensures Previews(Removed(files, index), mint) == Removed(Previews(files, mint), index)
  {
    var a, b := Previews(Removed(files, index), mint), Removed(Previews(files, mint), index);
    assert |a| == |b|;
    forall k | 0 <= k < |a| ensures a[k] == b[k] {
    }
  }

  /** Adding files extends the previews the same way the files are extended. */
  lemma PreviewsFollowAdd<T, U>(prev: seq<T>, selection: seq<T>, mint: T -> U)
    ensures Previews(Added(prev, selection), mint)
         == Added(Previews(prev, mint), Previews(selection, mint))
  {
    var a, b := Previews(Added(prev, selection), mint), Added(Previews(prev, mint), Previews(selection, mint));
    assert |a| == |b|;
    forall k | 0 <= k < |a| ensures a[k] == b[k] {
    }
  }
}
