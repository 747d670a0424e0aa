/** The process-wide cache of open loom datasets, keyed by a fingerprint of
    the file's content rather than by its path (GServer.py, SCope's
    `active_loom_connections`). */
module HandleCache {
  import opened Prelude
  import opened Loom

  type Path = string

  /** The MD5 hex digest of a file's last 10000 KB. */
  type Fingerprint = string

  /** What a path on disk holds: its fingerprint and its content. */
  datatype LoomFile = LoomFile(partialMd5: Fingerprint, content: Dataset)

  /** The files the server can see. A path exists exactly when it is a key. */
  datatype Disk = Disk(files: map<Path, LoomFile>)

  /** An open dataset handle, the object `loompy.connect` returns. */
  class LoomConnection {
    const path: Path
    const data: Dataset

    /** `lp.connect(path)`: a new handle on the content stored at `path`. */
    constructor Connect(path: Path, data: Dataset)
      ensures this.path == path && this.data == data
    {
      this.path := path;
      this.data := data;
    }
  }

  class SCope {
    /** Fingerprint to open handle. */
    var activeLoomConnections: map<Fingerprint, LoomConnection>
    const loomDir: Path

    /** The fingerprints opened so far, in order: one entry per `lp.connect`. */
    ghost var openings: seq<Fingerprint>

    /** The cache's invariant: every fingerprint was opened at most once, the
        cached ones are exactly those opened, and no handle serves two fingerprints. */
    ghost predicate Valid()
      reads this
    {
      && (forall i, j :: 0 <= i < j < |openings| ==> openings[i] != openings[j])
      && (forall fp :: fp in activeLoomConnections <==> fp in openings)
      && (forall f1, f2 :: f1 in activeLoomConnections && f2 in activeLoomConnections && f1 != f2 ==>
            activeLoomConnections[f1] != activeLoomConnections[f2])
    }

    constructor ()
      ensures Valid()
      ensures activeLoomConnections == map[] && openings == []
      ensures loomDir == "data/my-looms"
    {
      activeLoomConnections := map[];
      loomDir := "data/my-looms";
      openings := [];
    }

    /** `add_loom_connection`: store `loom` under `fp`, replacing any previous entry. */
    method AddLoomConnection(fp: Fingerprint, loom: LoomConnection)
      modifies this
      ensures activeLoomConnections == old(activeLoomConnections)[fp := loom]
      ensures openings == old(openings)
    {
      activeLoomConnections := activeLoomConnections[fp := loom];
    }

    /** `get_loom_filepath`: `os.path.join(loomDir, name)`. An absolute name
        replaces the directory; any other name is appended after a separator. */
    function GetLoomFilepath(name: Path): (p: Path)
      reads this
      ensures |name| > 0 && name[0] == '/' ==> p == name
      ensures !(|name| > 0 && name[0] == '/') ==>
        |p| == |loomDir| + 1 + |name| && p[..|loomDir| + 1] == loomDir + "/" && p[|loomDir| + 1..] == name
    {
      if |name| > 0 && name[0] == '/' then name else loomDir + "/" + name
    }

    /** `load_loom_file`: open the file and cache the new handle under `fp`. */
    method LoadLoomFile(disk: Disk, fp: Fingerprint, path: Path) returns (loom: LoomConnection)
      requires path in disk.files
      modifies this
      ensures fresh(loom)
      ensures loom.path == path && loom.data == disk.files[path].content
      ensures activeLoomConnections == old(activeLoomConnections)[fp := loom]
      ensures openings == old(openings) + [fp]
    {
      loom := new LoomConnection.Connect(path, disk.files[path].content);
      AddLoomConnection(fp, loom);
      openings := openings + [fp];
    }

    /** `get_loom_connection`: a missing path is a ValueError; otherwise the
        handle cached under the file's fingerprint, opening it on a miss. */
    method GetLoomConnection(disk: Disk, path: Path) returns (r: Result<LoomConnection>)
      requires Valid()
      modifies this
      ensures Valid()
      ensures path !in disk.files ==>
        r == Err(ValueError) && activeLoomConnections == old(activeLoomConnections) && openings == old(openings)
      ensures path in disk.files ==>
        var fp := disk.files[path].partialMd5;
        && r.Ok?
        && fp in activeLoomConnections && r.value == activeLoomConnections[fp]
        && (fp in old(activeLoomConnections) ==>
              && r.value == old(activeLoomConnections)[fp]
              && activeLoomConnections == old(activeLoomConnections)
              && openings == old(openings))
        && (fp !in old(activeLoomConnections) ==>
              && fresh(r.value)
              && r.value.path == path && r.value.data == disk.files[path].content
              && activeLoomConnections == old(activeLoomConnections)[fp := r.value]
              && openings == old(openings) + [fp])
    {
      if path !in disk.files {
        return Err(ValueError);
      }
      var fp := disk.files[path].partialMd5;
      if fp in activeLoomConnections {
        return Ok(activeLoomConnections[fp]);
      }
      var loom := LoadLoomFile(disk, fp, path);
      r := Ok(loom);
    }

    /** `get_nb_cells`: the number of cells of the handle cached for the file
        at `path`; on a hit that handle may have been opened from another path
        with the same fingerprint. */
    method GetNbCells(disk: Disk, path: Path) returns (r: Result<nat>)
      requires Valid()
      modifies this
      ensures Valid()
      ensures path !in disk.files ==> r == Err(ValueError)
      ensures path in disk.files ==>
        var fp := disk.files[path].partialMd5;
        && fp in activeLoomConnections
        && r == Ok(activeLoomConnections[fp].data.nCells)
        && (fp !in old(activeLoomConnections) ==> r == Ok(disk.files[path].content.nCells))
    {
      var loom := GetLoomConnection(disk, path);
      if loom.Err? {
        return Err(loom.error);
      }
      r := Ok(loom.value.data.nCells);
    }

    /** Two paths whose files share a fingerprint resolve to one handle, and
        the second resolution opens nothing. */
    method ResolveTwice(disk: Disk, p1: Path, p2: Path) returns (h1: LoomConnection, h2: LoomConnection)
      requires Valid()
      requires p1 in disk.files && p2 in disk.files
      requires disk.files[p1].partialMd5 == disk.files[p2].partialMd5
      modifies this
      ensures Valid()
      ensures h1 == h2
      ensures |openings| <= |old(openings)| + 1
    {
      var r1 := GetLoomConnection(disk, p1);
      var r2 := GetLoomConnection(disk, p2);
      h1, h2 := r1.value, r2.value;
    }
  }
}
