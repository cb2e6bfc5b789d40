/**
 * The part of the device file system the data layer touches: a set of directory paths.
 * Page files are not tracked; only directories are created, probed and deleted.
 */
module FileSystem {

  /** `path` is `dir` itself or lies somewhere beneath it. */
  predicate Within(path: string, dir: string)
  {
    path == dir || dir + "/" <= path
  }

  /** A trailing `/` names the same directory as the path without it. */
  function Normalize(path: string): (r: string)
    ensures r <= path && |path| <= |r| + 1
    ensures |r| < |path| ==> path == r + "/"
  {
    if |path| > 0 && path[|path| - 1] == '/' then path[..|path| - 1] else path
  }

  /** The directories left once `dir` and everything beneath it are gone. */
  function RemoveTree(dirs: set<string>, dir: string): (r: set<string>)
    ensures r <= dirs && dir !in r
    ensures forall p :: p in dirs && !Within(p, dir) ==> p in r
  {
    set p | p in dirs && !Within(p, dir)
  }

  /** One `deleteAsync`: a missing directory leaves everything as it was. */
  function DeleteOne(dirs: set<string>, path: string): set<string>
  {
    if Normalize(path) in dirs then RemoveTree(dirs, Normalize(path)) else dirs
  }

  /** The deletions, one after the other. */
  function DeleteEach(dirs: set<string>, paths: seq<string>): set<string>
  {
    if paths == [] then dirs else DeleteOne(DeleteEach(dirs, paths[..|paths| - 1]), paths[|paths| - 1])
  }

  /** Deleting only removes directories, and none of the deleted ones is left. */
  lemma {:induction false} DeleteEachRemoves(dirs: set<string>, paths: seq<string>)
    ensures DeleteEach(dirs, paths) <= dirs
    ensures forall i :: 0 <= i < |paths| ==> Normalize(paths[i]) !in DeleteEach(dirs, paths)
  {
    if paths != [] {
      var init := paths[..|paths| - 1];
      DeleteEachRemoves(dirs, init);
      forall i | 0 <= i < |paths| ensures Normalize(paths[i]) !in DeleteEach(dirs, paths) {
        if i < |init| {
          assert paths[i] == init[i];
        }
      }
    }
  }

  /** The directories of the device, changed in place by the calls below. */
  class Disk {
    var dirs: set<string>

    constructor (dirs: set<string>)
      ensures this.dirs == dirs
    {
      this.dirs := dirs;
    }

    /** `getInfoAsync(path).exists`. */
    method Exists(path: string) returns (b: bool)
      ensures b <==> Normalize(path) in dirs
    {
      b := Normalize(path) in dirs;
    }

    /** `makeDirectoryAsync(path)`: creation is assumed to succeed. */
    method MakeDirectory(path: string)
      modifies this
      ensures dirs == old(dirs) + {Normalize(path)}
    {
      dirs := dirs + {Normalize(path)};
    }

    /**
     * `deleteAsync(path)` without `idempotent`: fails, changing nothing, when the directory
     * is missing; otherwise removes it with everything beneath it.
     */
    method Delete(path: string) returns (ok: bool)
      modifies this
      ensures ok <==> Normalize(path) in old(dirs)
      ensures dirs == if ok then RemoveTree(old(dirs), Normalize(path)) else old(dirs)
    {
      ok := Normalize(path) in dirs;
      if ok {
        dirs := RemoveTree(dirs, Normalize(path));
      }
    }
  }
}
