/**
 * `collect_region_files`: the region files of a world are the `mca`
 * entries of its overworld, nether and end region folders, in that order.
 */
module Enumeration {
  import opened Wrappers
  import opened Paths
  import opened Storage

  /** The world-relative folders holding region files, in the order they are searched. */
  const REGION_SUBFOLDERS: seq<string> := ["region", "DIM-1/region", "DIM1/region"]

  /** A folder that exists: its listing fails, or yields these entries in directory order. */
  datatype Listing = Unlistable | Listed(entries: seq<Entry>)

  /**
   * A world folder: whether it is present, and the listing of each existing
   * world-relative folder. A folder absent from the map does not exist.
   */
  datatype World = World(present: bool, folders: map<string, Listing>)

  predicate IsRegionFileName(name: string)
  {
    Extension(name) == Some(REGION_EXTENSION)
  }

  /** The entries of one listing whose extension is `mca`, in listing order. */
  function RegionEntries(folder: string, entries: seq<Entry>): (r: seq<RegionPath>)
    ensures |r| <= |entries|
    ensures forall p :: p in r <==> p.folder == folder && p.entry in entries && IsRegionFileName(p.entry.name)
    decreases |entries|
  {
    if |entries| == 0 then []
    else
      var rest := RegionEntries(folder, entries[1..]);
      assert forall e :: e in entries <==> e == entries[0] || e in entries[1..];
      if IsRegionFileName(entries[0].name) then [RegionPath(folder, entries[0])] + rest else rest
  }

  /** A single entry is kept, once, exactly when its extension is `mca`. */
  lemma RegionEntriesSingle(folder: string, e: Entry)
    ensures RegionEntries(folder, [e]) == if IsRegionFileName(e.name) then [RegionPath(folder, e)] else []
  {
    assert [e][1..] == [];
  }

  /**
   * Filtering a listing is filtering its parts in order: with the one-entry
   * case this fixes the result, its order and its repetitions.
   */
  lemma {:induction false} RegionEntriesAppend(folder: string, a: seq<Entry>, b: seq<Entry>)
    ensures RegionEntries(folder, a + b) == RegionEntries(folder, a) + RegionEntries(folder, b)
    decreases |a|
  {
    if |a| == 0 {
      assert a + b == b;
    } else {
      assert (a + b)[0] == a[0];
      assert (a + b)[1..] == a[1..] + b;
      RegionEntriesAppend(folder, a[1..], b);
    }
  }

  /** What one subfolder contributes when it is listed; a missing folder contributes nothing. */
  function FolderShare(folders: map<string, Listing>, folder: string): seq<RegionPath>
  {
    if folder in folders && folders[folder].Listed? then RegionEntries(folder, folders[folder].entries) else []
  }

  predicate Unlisted(folders: map<string, Listing>, folder: string)
  {
    folder in folders && folders[folder].Unlistable?
  }

  /** Walk `subfolders` in order; the first one that exists but cannot be listed fails the walk. */
  function CollectFrom(subfolders: seq<string>, folders: map<string, Listing>): (r: Result<seq<RegionPath>, string>)
    ensures r.Failure? <==> exists i :: 0 <= i < |subfolders| && Unlisted(folders, subfolders[i])
    ensures r.Failure? ==> r.error in subfolders && Unlisted(folders, r.error)
    decreases |subfolders|
  {
    if |subfolders| == 0 then Success([])
    else
      var folder := subfolders[0];
      var rest := CollectFrom(subfolders[1..], folders);
      assert forall i :: 1 <= i < |subfolders| ==> subfolders[i] == subfolders[1..][i - 1];
      if folder !in folders then rest
      else
        match folders[folder]
        case Unlistable => Failure(folder)
        case Listed(entries) =>
          if rest.Failure? then rest
          else Success(RegionEntries(folder, entries) + rest.value)
  }

  /**
   * The region files of a world: the `mca` entries of `region`, then of
   * `DIM-1/region`, then of `DIM1/region`; missing folders are skipped and
   * a folder that cannot be listed fails the whole collection.
   */
  function CollectRegionFiles(folders: map<string, Listing>): (r: Result<seq<RegionPath>, string>)
    ensures r.Failure? <==> Unlisted(folders, "region") || Unlisted(folders, "DIM-1/region") || Unlisted(folders, "DIM1/region")
    ensures r.Success? ==> r.value == FolderShare(folders, "region")
                                   + FolderShare(folders, "DIM-1/region")
                                   + FolderShare(folders, "DIM1/region")
  {
    var r := CollectFrom(REGION_SUBFOLDERS, folders);
    assert REGION_SUBFOLDERS[1..] == ["DIM-1/region", "DIM1/region"];
    assert REGION_SUBFOLDERS[1..][1..] == ["DIM1/region"];
    assert REGION_SUBFOLDERS[1..][1..][1..] == [];
    r
  }

  /**
   * A collected path is exactly an entry of one of the three region
   * folders whose name ends in `.mca` after a non-empty stem.
   */
  lemma CollectedAreRegionFiles(folders: map<string, Listing>)
    requires CollectRegionFiles(folders).Success?
    ensures forall p :: p in CollectRegionFiles(folders).value <==>
      && p.folder in REGION_SUBFOLDERS
      && p.folder in folders && folders[p.folder].Listed?
      && p.entry in folders[p.folder].entries
      && EndsInMca(p.entry.name)
  {
    forall name: string ensures IsRegionFileName(name) <==> EndsInMca(name) {
      McaExtension(name);
    }
  }
}
