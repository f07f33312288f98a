/** The file helpers of utils/filesystem.py over a file system that is a map
    from paths to entries. The video root (VIDEO_DIR in the configuration)
    is a parameter. */
module FileSystem {
  import opened Strings

  /** A regular file with its size, or a directory. */
  datatype Entry = File(size: nat) | Dir

  /** The proper ancestors of a path: every prefix that ends just before a
      '/' (a leading '/' gives none). */
  function Ancestors(d: string): (r: set<string>)
    ensures forall p :: p in r ==> |p| < |d| && d[..|p|] == p
  {
    set i | 0 < i < |d| && d[i] == '/' :: d[..i]
  }

  /** makedirs raises when an existing ancestor is a regular file. */
  predicate Blocked(entries: map<string, Entry>, d: string) {
    exists p :: p in Ancestors(d) && p in entries && entries[p].File?
  }

  /** ensure_dir_exists: an existing path (a file included) is left alone;
      otherwise makedirs creates the directory and its missing ancestors, or
      raises (None) when an ancestor is a regular file. */
  function EnsureDir(entries: map<string, Entry>, d: string): (r: Option<map<string, Entry>>)
    ensures d in entries ==> r == Some(entries)
    ensures r.None? <==> d !in entries && Blocked(entries, d)
    ensures r.Some? ==> d in r.value && (d !in entries ==> r.value[d] == Dir)
    ensures r.Some? ==> forall p :: p in entries ==> p in r.value && r.value[p] == entries[p]
    ensures r.Some? ==> forall p :: p in r.value && p !in entries ==> r.value[p] == Dir && (p == d || p in Ancestors(d))
  {
    if d in entries then Some(entries)
    else if Blocked(entries, d) then None
    else Some(map p | p in entries.Keys + Ancestors(d) + {d} :: if p in entries then entries[p] else Dir)
  }

  /** Ensuring a directory twice is ensuring it once. */
  lemma EnsureDirIdempotent(entries: map<string, Entry>, d: string)
    requires EnsureDir(entries, d).Some?
    ensures EnsureDir(EnsureDir(entries, d).value, d) == EnsureDir(entries, d)
  {
  }

  /** After an ensured directory, every ancestor of it exists. */
  lemma EnsureDirAncestors(entries: map<string, Entry>, d: string, p: string)
    requires d !in entries && EnsureDir(entries, d).Some?
    requires p in Ancestors(d)
    ensures p in EnsureDir(entries, d).value && EnsureDir(entries, d).value[p] == Dir
  {
    assert !(p in entries && entries[p].File?);
  }

  /** get_relative_video_path: "{anime_id}/ep{episode_id}.{extension}", the
      extension mp4 by default. */
  function RelativeVideoPath(animeId: string, episodeId: string, extension: string := "mp4"): (r: string)
    ensures StartsWith(r, animeId + "/ep")
    ensures EndsWith(r, "." + extension)
  {
    var r := animeId + "/ep" + episodeId + "." + extension;
    assert r[..|animeId + "/ep"|] == animeId + "/ep";
    assert r[|r| - |"." + extension|..] == "." + extension;
    r
  }

  /** The file name of an episode. */
  function EpisodeFile(episodeId: string, extension: string): string {
    "ep" + episodeId + "." + extension
  }

  /** The anime's directory under the video root. */
  function AnimeDir(videoDir: string, animeId: string): string {
    PathJoin(videoDir, animeId)
  }

  /** With an ordinary root (not empty, no trailing '/') and an ordinary
      anime id (not empty, no '/' at either end), the full path is the root,
      '/', and the relative path. */
  lemma VideoPathIsRootPlusRelative(videoDir: string, animeId: string, episodeId: string, extension: string)
    requires videoDir != "" && !EndsWith(videoDir, "/")
    requires animeId != "" && !StartsWith(animeId, "/") && !EndsWith(animeId, "/")
    ensures PathJoin(AnimeDir(videoDir, animeId), EpisodeFile(episodeId, extension)) ==
            videoDir + "/" + RelativeVideoPath(animeId, episodeId, extension)
  {
    var dir := videoDir + "/" + animeId;
    assert AnimeDir(videoDir, animeId) == dir;
    assert !StartsWith(EpisodeFile(episodeId, extension), "/") by {
      assert EpisodeFile(episodeId, extension)[0] == 'e';
    }
    assert !EndsWith(dir, "/") by {
      assert dir[|dir| - 1] == animeId[|animeId| - 1];
    }
  }

  class Disk {
    var entries: map<string, Entry>

    constructor (entries: map<string, Entry>)
      ensures this.entries == entries
    {
      this.entries := entries;
    }

    /** ensure_dir_exists; raised is true when makedirs raised (the file
        system is then unchanged). */
    method EnsureDirExists(directory: string) returns (raised: bool)
      modifies this
      ensures raised <==> EnsureDir(old(entries), directory).None?
      ensures raised ==> entries == old(entries)
      ensures !raised ==> Some(entries) == EnsureDir(old(entries), directory)
    {
      if directory !in entries {
        var r := EnsureDir(entries, directory);
        if r.None? {
          return true;
        }
        entries := r.value;
      }
      return false;
    }

    /** get_video_path: the anime's directory is ensured and the episode's
        path in it returned (None when ensuring the directory raised). */
    method GetVideoPath(videoDir: string, animeId: string, episodeId: string, extension: string := "mp4")
      returns (path: Option<string>)
      modifies this
      ensures path.None? <==> EnsureDir(old(entries), AnimeDir(videoDir, animeId)).None?
      ensures path.None? ==> entries == old(entries)
      ensures path.Some? ==>
                Some(entries) == EnsureDir(old(entries), AnimeDir(videoDir, animeId)) &&
                path.value == PathJoin(AnimeDir(videoDir, animeId), EpisodeFile(episodeId, extension))
    {
      var animeDir := PathJoin(videoDir, animeId);
      var raised := EnsureDirExists(animeDir);
      if raised {
        return None;
      }
      path := Some(PathJoin(animeDir, "ep" + episodeId + "." + extension));
    }

    /** file_exists: the path exists and is a regular file. */
    function FileExists(path: string): (b: bool)
      reads this
      ensures b <==> path in entries && entries[path].File?
    {
      path in entries && entries[path].File?
    }

    /** get_file_size: the size of a regular file, 0 otherwise. */
    function FileSize(path: string): (n: nat)
      reads this
      ensures FileExists(path) ==> n == entries[path].size
      ensures !FileExists(path) ==> n == 0
    {
      if FileExists(path) then entries[path].size else 0
    }

    /** delete_file: a regular file is removed and True returned; anything
        else, or a removal that raises (removeRaises), returns False with
        nothing removed. */
    method DeleteFile(path: string, removeRaises: bool) returns (deleted: bool)
      modifies this
      ensures deleted <==> old(FileExists(path)) && !removeRaises
      ensures deleted ==> entries == old(entries) - {path}
      ensures deleted ==> !FileExists(path) && FileSize(path) == 0
      ensures !deleted ==> entries == old(entries)
    {
      if FileExists(path) {
        if removeRaises {
          return false;
        }
        entries := entries - {path};
        return true;
      }
      return false;
    }
  }
}
