/**
 * The part of JSZip the exporters rely on: `folder(name)` gives a handle whose
 * `file(path, blob)` records `name + "/" + path`, and the finished archive keeps, for
 * every path, the blob written last under it (a second `file` call with the same path
 * replaces the first).  Compression and the archive's byte format are not modelled.
 */
module Archive {

  /** One `file(path, blob)` call. */
  datatype Write<B> = Write(path: string, blob: B)

  /** The archive the writes produce: the last blob written under each path. */
  function Contents<B>(ws: seq<Write<B>>): (m: map<string, B>)
    ensures m.Keys == Paths(ws)
  {
    if ws == [] then map[]
    else Contents(ws[..|ws| - 1])[ws[|ws| - 1].path := ws[|ws| - 1].blob]
  }

  /** The paths written. */
  function Paths<B>(ws: seq<Write<B>>): set<string>
  {
    set i | 0 <= i < |ws| :: ws[i].path
  }

  predicate DistinctPaths<B>(ws: seq<Write<B>>)
  {
    forall i, j :: 0 <= i < j < |ws| ==> ws[i].path != ws[j].path
  }

  /**
   * The archive holds one entry per write exactly when no two writes share a path;
   * otherwise later writes have replaced earlier ones and entries are lost.
   */
  lemma {:induction false} EntryCount<B>(ws: seq<Write<B>>)
    ensures |Contents(ws)| <= |ws|
    ensures |Contents(ws)| == |ws| <==> DistinctPaths(ws)
  {
    assert |Contents(ws)| == |Paths(ws)|;
    if ws != [] {
      var init, last := ws[..|ws| - 1], ws[|ws| - 1];
      EntryCount(init);
      assert |Contents(init)| == |Paths(init)|;
      PathsSnoc(ws);
      if last.path in Paths(init) {
        var i :| 0 <= i < |init| && init[i].path == last.path;
        assert ws[i].path == ws[|ws| - 1].path;
        assert !DistinctPaths(ws);
      } else {
        DistinctSnoc(ws);
      }
    }
  }

  lemma PathsSnoc<B>(ws: seq<Write<B>>)
    requires ws != []
    ensures Paths(ws) == Paths(ws[..|ws| - 1]) + {ws[|ws| - 1].path}
  {
    var init := ws[..|ws| - 1];
    forall p | p in Paths(ws) ensures p in Paths(init) + {ws[|ws| - 1].path} {
      var i :| 0 <= i < |ws| && ws[i].path == p;
      if i < |ws| - 1 {
        assert init[i].path == p;
      }
    }
    forall p | p in Paths(init) ensures p in Paths(ws) {
      var i :| 0 <= i < |init| && init[i].path == p;
      assert ws[i].path == p;
    }
  }

  lemma DistinctSnoc<B>(ws: seq<Write<B>>)
    requires ws != [] && ws[|ws| - 1].path !in Paths(ws[..|ws| - 1])
    ensures DistinctPaths(ws) <==> DistinctPaths(ws[..|ws| - 1])
  {
    var init := ws[..|ws| - 1];
    if DistinctPaths(init) {
      forall i, j | 0 <= i < j < |ws| ensures ws[i].path != ws[j].path {
        if j == |ws| - 1 {
          assert init[i].path in Paths(init);
        } else {
          assert init[i] == ws[i] && init[j] == ws[j];
        }
      }
    }
  }

  /** With distinct paths, every write survives with its own blob. */
  lemma {:induction false} ContentsAt<B>(ws: seq<Write<B>>, k: nat)
    requires DistinctPaths(ws) && k < |ws|
    ensures ws[k].path in Contents(ws) && Contents(ws)[ws[k].path] == ws[k].blob
  {
    if k < |ws| - 1 {
      ContentsAt(ws[..|ws| - 1], k);
    }
  }

  /**
   * A `zip.folder(prefix)` handle: every file it receives lands under `prefix/`.  Only
   * file writes are recorded; the directory entry JSZip also creates for the folder is not.
   */
  class Folder<B> {
    const prefix: string
    var writes: seq<Write<B>>

    constructor (prefix: string)
      ensures this.prefix == prefix && writes == []
    {
      this.prefix := prefix;
      writes := [];
    }

    /** `folder.file(name, blob)`. */
    method File(name: string, blob: B)
      modifies this
      ensures writes == old(writes) + [Write(prefix + "/" + name, blob)]
    {
      writes := writes + [Write(prefix + "/" + name, blob)];
    }
  }

  /** A `new JSZip()` archive: `file(path, blob)` records the path as given. */
  class Zip<B> {
    var writes: seq<Write<B>>

    constructor ()
      ensures writes == []
    {
      writes := [];
    }

    /** `zip.file(path, blob)`. */
    method File(path: string, blob: B)
      modifies this
      ensures writes == old(writes) + [Write(path, blob)]
    {
      writes := writes + [Write(path, blob)];
    }
  }
}
