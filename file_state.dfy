/**
 * The Android build's record of input and output files
 * (android/plugins/hyperloop/hooks/android/internal/monitor): one
 * `FileState` per file, and a `FileStateMonitor` that sorts files into new,
 * changed and removed from one build to the next.
 *
 * The file system is a parameter: a map from path to what `stat` and a
 * SHA-1 of the contents would give.
 */
module FileStates {
  import opened Wrappers

  /** What the file system holds for one file: modification time, size, content hash. */
  datatype Stat = Stat(mtime: int, size: int, digest: string)

  type Disk = map<string, Stat>

  /**
   * Two snapshots of one file differ unless their modification times are
   * equal; with different times they differ when the sizes or the content
   * hashes do.
   */
  predicate Differs(mtime1: int, size1: int, digest1: string, mtime2: int, size2: int, digest2: string)
  {
    mtime1 != mtime2 && (size1 != size2 || digest1 != digest2)
  }

  /** The comparison does not depend on which snapshot is asked. */
  lemma DiffersSymmetric(mtime1: int, size1: int, digest1: string, mtime2: int, size2: int, digest2: string)
    ensures Differs(mtime1, size1, digest1, mtime2, size2, digest2) <==> Differs(mtime2, size2, digest2, mtime1, size1, digest1)
  {
  }

  /**
   * A touched file with the same contents is not reported, and neither is a
   * file whose time stamp is unchanged, whatever happened to its contents.
   */
  lemma DiffersOnlyOnContent(mtime1: int, size1: int, digest1: string, mtime2: int, size2: int, digest2: string)
    ensures size1 == size2 && digest1 == digest2 ==> !Differs(mtime1, size1, digest1, mtime2, size2, digest2)
    ensures mtime1 == mtime2 ==> !Differs(mtime1, size1, digest1, mtime2, size2, digest2)
    ensures mtime1 != mtime2 && size1 != size2 ==> Differs(mtime1, size1, digest1, mtime2, size2, digest2)
  {
  }

  /** The snapshot of one file; only the hash is filled in later, on first use. */
  class FileState {
    const path: string
    const lastModified: int
    const size: int
    var sha1: Option<string>

    /** The four-argument constructor: every field as given (a state read back from disk). */
    constructor (path: string, lastModified: int, size: int, sha1: Option<string>)
      ensures this.path == path && this.lastModified == lastModified && this.size == size && this.sha1 == sha1
    {
      this.path := path;
      this.lastModified := lastModified;
      this.size := size;
      this.sha1 := sha1;
    }

    /** The one-argument constructor: time and size from `stat`, the hash not yet computed. */
    constructor OfFile(path: string, disk: Disk)
      requires path in disk
      ensures this.path == path && lastModified == disk[path].mtime && size == disk[path].size && sha1 == None
    {
      this.path := path;
      lastModified := disk[path].mtime;
      size := disk[path].size;
      sha1 := None;
    }

    /** The hash the getter yields: the cached one, or that of the file's current contents. */
    function Digest(disk: Disk): string
      reads this
      requires sha1.Some? || path in disk
    {
      if sha1.Some? then sha1.value else disk[path].digest
    }

    /**
     * The `sha1` getter: computes the hash on first use and caches it, so
     * every later use gives the same hash whatever the file now holds.
     */
    method Sha1(disk: Disk) returns (h: string)
      requires sha1.Some? || path in disk
      modifies this
      ensures h == old(Digest(disk))
      ensures sha1 == Some(h)
      ensures forall d :: Digest(d) == h
    {
      if sha1 == None {
        sha1 := Some(disk[path].digest);
      }
      h := sha1.value;
    }

    /**
     * `isDifferentThan`: comparing snapshots of different paths fails;
     * otherwise the answer is `Differs` on the two snapshots, and a hash
     * is computed only when the times differ and the sizes agree.
     */
    method IsDifferentThan(other: FileState, disk: Disk) returns (r: Result<bool>)
      requires sha1.Some? || path in disk
      requires other.sha1.Some? || other.path in disk
      modifies this, other
      ensures path != other.path ==> r.Err?
      ensures path == other.path ==>
        r == Ok(Differs(lastModified, size, old(Digest(disk)), other.lastModified, other.size, old(other.Digest(disk))))
      ensures path != other.path || lastModified == other.lastModified || size != other.size ==>
        sha1 == old(sha1) && other.sha1 == old(other.sha1)
    {
      if path != other.path {
        return Err("Can only compare files with the same path");
      }
      if lastModified == other.lastModified {
        return Ok(false);
      }
      if size != other.size {
        return Ok(true);
      }
      ghost var otherDigest := other.Digest(disk);
      var mine := Sha1(disk);
      assert other.Digest(disk) == otherDigest;
      var theirs := other.Sha1(disk);
      return Ok(mine != theirs);
    }
  }

  /** How a file changed since the state last written. */
  datatype Change = New | Changed | Removed

  /** One file's entry in a persisted state file. */
  datatype Entry = Entry(path: string, lastModified: int, size: int, sha1: Option<string>)

  /** The last entry of a state file for `p`, the one loading keeps; `None` when `p` is not listed. */
  function LastEntry(entries: seq<Entry>, p: string): (r: Option<Entry>)
    ensures r.Some? ==> r.value.path == p
  {
    if entries == [] then None
    else if entries[|entries| - 1].path == p then Some(entries[|entries| - 1])
    else LastEntry(entries[..|entries| - 1], p)
  }

  /** `LastEntry` finds the entry for `p` that no later entry overrides, and `None` only for an unlisted path. */
  lemma {:induction false} LastEntryIsLast(entries: seq<Entry>, p: string)
    ensures LastEntry(entries, p).None? <==> forall i :: 0 <= i < |entries| ==> entries[i].path != p
    ensures LastEntry(entries, p).Some? ==>
      exists i :: 0 <= i < |entries| && entries[i] == LastEntry(entries, p).value &&
        forall j :: i < j < |entries| ==> entries[j].path != p
  {
    if entries != [] && entries[|entries| - 1].path != p {
      var front := entries[..|entries| - 1];
      LastEntryIsLast(front, p);
      assert forall i :: 0 <= i < |front| ==> front[i] == entries[i];
    }
  }

  /** `m2` is `m` with `p` mapped to `v`. */
  ghost predicate Assigned<V>(m2: map<string, V>, m: map<string, V>, p: string, v: V)
  {
    p in m2 && m2[p] == v &&
    forall q :: q != p ==> (q in m2 <==> q in m) && (q in m ==> m2[q] == m[q])
  }

  /** `m2` is `m` without `p`. */
  ghost predicate Dropped<V>(m2: map<string, V>, m: map<string, V>, p: string)
  {
    p !in m2 && forall q :: q != p ==> (q in m2 <==> q in m) && (q in m ==> m2[q] == m[q])
  }

  /**
   * The states of the files watched by one build step: `loaded` from the
   * previous build and not seen again yet, `processed` in this build, and
   * the `changed` marks of this build.
   */
  class FileStateMonitor {
    var loaded: map<string, FileState>
    var processed: map<string, FileState>
    var changed: map<string, Change>

    /** Every state is filed under its own path, and only processed paths carry a mark. */
    ghost predicate Valid()
      reads this
    {
      (forall p :: p in loaded ==> loaded[p].path == p) &&
      (forall p :: p in processed ==> processed[p].path == p) &&
      (forall p :: p in changed ==> p in processed && changed[p] != Removed)
    }

    /** No path is both still loaded and already processed. */
    ghost predicate Disjoint()
      reads this
    {
      forall p :: p in loaded ==> p !in processed
    }

    constructor ()
      ensures loaded == map[] && processed == map[] && changed == map[]
      ensures Valid() && Disjoint()
    {
      loaded := map[];
      processed := map[];
      changed := map[];
    }

    /**
     * `load`: a missing or unreadable state file (`None`) loads nothing and
     * answers false; otherwise each listed file's state is added to
     * `loaded`, a later entry for a path replacing an earlier one.
     */
    method Load(state: Option<seq<Entry>>) returns (ok: bool)
      requires Valid()
      modifies this
      ensures ok <==> state.Some?
      ensures Valid()
      ensures processed == old(processed) && changed == old(changed)
      ensures !ok ==> loaded == old(loaded)
      ensures ok ==> forall p :: p in loaded <==> p in old(loaded) || LastEntry(state.value, p).Some?
      ensures ok ==> forall p :: p in old(loaded) && LastEntry(state.value, p).None? ==> loaded[p] == old(loaded)[p]
      ensures ok ==> forall p :: LastEntry(state.value, p).Some? ==>
        fresh(loaded[p]) && Some(Snapshot(loaded[p])) == LastEntry(state.value, p)
    {
      if state.None? {
        return false;
      }
      var entries := state.value;
      for i := 0 to |entries|
        invariant Valid()
        invariant processed == old(processed) && changed == old(changed)
        invariant forall p :: p in loaded <==> p in old(loaded) || LastEntry(entries[..i], p).Some?
        invariant forall p :: p in old(loaded) && LastEntry(entries[..i], p).None? ==> loaded[p] == old(loaded)[p]
        invariant forall p :: LastEntry(entries[..i], p).Some? ==>
          fresh(loaded[p]) && Some(Snapshot(loaded[p])) == LastEntry(entries[..i], p)
      {
        var e := entries[i];
        var fileState := new FileState(e.path, e.lastModified, e.size, e.sha1);
        LoadStep(entries, i);
        AddLoaded(e.path, fileState);
      }
      assert entries[..|entries|] == entries;
      return true;
    }

    /**
     * `updateFileState` for a file that exists: a path not loaded is marked
     * new and its fresh state processed; a loaded path moves from `loaded`
     * to `processed`, marked changed with its fresh state when the two
     * differ, and keeping its old state, unmarked, when they do not.
     */
    method UpdateFileState(p: string, disk: Disk)
      requires p in disk
      requires Valid()
      modifies this, loaded.Values
      ensures Valid()
      ensures old(Disjoint()) ==> Disjoint()
      ensures p in processed && forall q :: q != p ==> (q in processed <==> q in old(processed))
      ensures forall q :: q != p && q in old(processed) ==> processed[q] == old(processed)[q]
      ensures forall q :: q != p ==> (q in changed <==> q in old(changed))
      ensures forall q :: q != p && q in old(changed) ==> changed[q] == old(changed)[q]
      ensures p !in old(loaded) ==> loaded == old(loaded) && p in changed && changed[p] == New
      ensures p !in old(loaded) ==> fresh(processed[p]) && Snapshot(processed[p]) == Entry(p, disk[p].mtime, disk[p].size, None)
      ensures p in old(loaded) ==> Dropped(loaded, old(loaded), p)
      ensures p in old(loaded) ==>
        var before := old(loaded[p]);
        var differs := Differs(disk[p].mtime, disk[p].size, disk[p].digest,
                               before.lastModified, before.size, old(before.Digest(disk)));
        (differs ==> p in changed && changed[p] == Changed && fresh(processed[p]) &&
                     processed[p].lastModified == disk[p].mtime && processed[p].size == disk[p].size) &&
        (!differs ==> (p in changed <==> p in old(changed)) && processed[p] == before)
      ensures forall q :: q in loaded ==> q in old(loaded) && loaded[q].sha1 == old(loaded[q].sha1)
    {
      var newState := new FileState.OfFile(p, disk);
      if p !in loaded {
        SetChange(p, New);
        SetProcessed(p, newState);
        return;
      }
      var existing := loaded[p];
      DropLoaded(p);
      assert forall q :: q in loaded ==> loaded[q].path != p;
      var r := newState.IsDifferentThan(existing, disk);
      if r == Ok(true) {
        SetChange(p, Changed);
        SetProcessed(p, newState);
      } else {
        SetProcessed(p, existing);
      }
    }

    method AddLoaded(p: string, s: FileState)
      modifies this
      ensures Assigned(loaded, old(loaded), p, s)
      ensures processed == old(processed) && changed == old(changed)
    {
      loaded := loaded[p := s];
    }

    method SetChange(p: string, c: Change)
      modifies this
      ensures Assigned(changed, old(changed), p, c)
      ensures loaded == old(loaded) && processed == old(processed)
    {
      changed := changed[p := c];
    }

    method SetProcessed(p: string, s: FileState)
      modifies this
      ensures Assigned(processed, old(processed), p, s)
      ensures loaded == old(loaded) && changed == old(changed)
    {
      processed := processed[p := s];
    }

    method DropLoaded(p: string)
      modifies this
      ensures Dropped(loaded, old(loaded), p)
      ensures processed == old(processed) && changed == old(changed)
    {
      loaded := loaded - {p};
    }

    /**
     * `update` once the watched paths have been expanded to the files they
     * hold: last build's processed states become the loaded ones, the marks
     * are cleared, and every file is processed again.  Afterwards the
     * processed paths are exactly these files and the loaded ones are last
     * build's files that are gone.  A file not seen last time is new, and so
     * is a file listed twice, since its second visit finds it no longer
     * loaded; a file seen last time and listed once is marked changed, with
     * its fresh state, when it differs from last build's state, and keeps
     * that state, unmarked, when it does not (`Revisited`).
     */
    method Update(files: seq<string>, disk: Disk)
      requires forall i :: 0 <= i < |files| ==> files[i] in disk
      requires Valid()
      modifies this, processed.Values
      ensures Valid() && Disjoint()
      ensures forall q :: q in processed <==> q in files
      ensures forall q :: q in loaded <==> q in old(processed) && q !in files
      ensures forall q :: q in files && (q !in old(processed) || multiset(files)[q] >= 2) ==>
        IsNew(q, disk, processed, changed)
      ensures forall q :: q in files && q in old(processed) && multiset(files)[q] == 1 ==>
        Revisited(q, disk, old(processed[q]), old(processed[q].Digest(disk)), processed, changed)
    {
      ghost var previous := processed;
      ghost var digests := map q | q in previous && q in disk :: previous[q].Digest(disk);
      loaded := processed;
      processed := map[];
      changed := map[];
      for i := 0 to |files|
        invariant Progress(files, i, disk, previous, digests)
      {
        Visit(files, i, disk, previous, digests);
      }
      assert files[..|files|] == files;
      VisitedAll(files, disk, previous, digests, processed, changed);
    }

    /**
     * The state after `update` has processed the first `i` files: the
     * loaded states are last build's (`previous`, hashed as `digests`)
     * minus those files, and `Visited` holds of the processed ones.
     */
    ghost predicate Progress(files: seq<string>, i: nat, disk: Disk, previous: map<string, FileState>, digests: map<string, string>)
      reads this, loaded.Values
    {
      i <= |files| && Valid() && Disjoint() &&
      (forall q :: q in processed <==> q in files[..i]) &&
      (forall q :: q in loaded <==> q in previous && q !in files[..i]) &&
      (forall q :: q in loaded ==> loaded[q] == previous[q]) &&
      (forall q :: q in loaded && q in disk ==> q in digests && loaded[q].Digest(disk) == digests[q]) &&
      Visited(files[..i], disk, previous, digests, processed, changed)
    }

    /** One round of `update`'s loop: processes the next file. */
    method Visit(files: seq<string>, i: nat, disk: Disk, ghost previous: map<string, FileState>, ghost digests: map<string, string>)
      requires i < |files| && files[i] in disk
      requires Progress(files, i, disk, previous, digests)
      modifies this, loaded.Values
      ensures Progress(files, i + 1, disk, previous, digests)
    {
      var p := files[i];
      ghost var processed0, changed0, wasLoaded := processed, changed, p in loaded;
      ghost var loaded0 := loaded;
      UpdateFileState(p, disk);
      VisitStep(files, i, disk, previous, digests, processed0, changed0, processed, changed, wasLoaded);
      KeysStep(files, i, previous, processed0, processed, loaded0, loaded);
      ProgressIntro(files, i + 1, disk, previous, digests);
    }

    /** `Progress` from its parts. */
    lemma ProgressIntro(files: seq<string>, i: nat, disk: Disk, previous: map<string, FileState>, digests: map<string, string>)
      requires i <= |files| && Valid() && Disjoint()
      requires forall q :: q in processed <==> q in files[..i]
      requires forall q :: q in loaded <==> q in previous && q !in files[..i]
      requires forall q :: q in loaded ==> loaded[q] == previous[q]
      requires forall q :: q in loaded && q in disk ==> q in digests && loaded[q].Digest(disk) == digests[q]
      requires Visited(files[..i], disk, previous, digests, processed, changed)
      ensures Progress(files, i, disk, previous, digests)
    {
    }

    /**
     * `getChangedFiles`: this build's marks plus every loaded path not seen
     * again, marked removed; the monitor itself is left as it is.
     */
    method GetChangedFiles() returns (r: map<string, Change>)
      requires Valid()
      ensures forall p :: p in r <==> p in changed || p in loaded
      ensures forall p :: p in loaded ==> r[p] == Removed
      ensures forall p :: p in changed && p !in loaded ==> r[p] == changed[p]
    {
      r := changed;
      var remaining := loaded.Keys;
      while remaining != {}
        invariant remaining <= loaded.Keys
        invariant forall p :: p in r <==> p in changed || (p in loaded && p !in remaining)
        invariant forall p :: p in loaded && p !in remaining ==> r[p] == Removed
        invariant forall p :: p in changed && (p !in loaded || p in remaining) ==> r[p] == changed[p]
        decreases |remaining|
      {
        HasKey(remaining);
        var p :| p in remaining;
        var removedFile := loaded[p];
        r := r[removedFile.path := Removed];
        remaining := remaining - {p};
      }
    }

    /**
     * `write`: the state file lists exactly the processed files, each with
     * its time, size and hash (computed now if it was not yet).
     */
    method Write(disk: Disk) returns (files: map<string, Entry>)
      requires Valid()
      requires forall p :: p in processed ==> processed[p].sha1.Some? || p in disk
      modifies processed.Values
      ensures forall p :: p in files <==> p in processed
      ensures forall p :: p in files ==>
        files[p] == Entry(p, processed[p].lastModified, processed[p].size, Some(old(processed[p].Digest(disk))))
    {
      files := map[];
      var states := processed;
      var remaining := states.Keys;
      ghost var digests := map p | p in states :: states[p].Digest(disk);
      while remaining != {}
        invariant remaining <= states.Keys
        invariant forall p :: p in remaining ==> states[p].sha1 == old(states[p].sha1)
        invariant forall p :: p in files <==> p in states && p !in remaining
        invariant forall p :: p in files ==>
          files[p] == Entry(p, states[p].lastModified, states[p].size, Some(digests[p]))
        decreases |remaining|
      {
        HasKey(remaining);
        var p :| p in remaining;
        var fileState := states[p];
        var h := fileState.Sha1(disk);
        files := files[fileState.path := Entry(fileState.path, fileState.lastModified, fileState.size, Some(h))];
        remaining := remaining - {p};
      }
    }
  }

  /** A state as it is written to, and read back from, a state file. */
  function Snapshot(s: FileState): Entry
    reads s
  {
    Entry(s.path, s.lastModified, s.size, s.sha1)
  }

  lemma HasKey(keys: set<string>)
    requires keys != {}
    ensures exists k :: k in keys
  {
    if forall k :: k !in keys {
      assert false;
    }
  }

  /** Loading one more entry: it is the last one for its path and leaves the others' last entries alone. */
  lemma LoadStep(entries: seq<Entry>, i: nat)
    requires i < |entries|
    ensures LastEntry(entries[..i + 1], entries[i].path) == Some(entries[i])
    ensures forall p :: p != entries[i].path ==> LastEntry(entries[..i + 1], p) == LastEntry(entries[..i], p)
  {
    assert entries[..i + 1][..i] == entries[..i];
  }
  /** `q` was processed as a file not loaded: marked new, with its time and size on disk. */
  ghost predicate IsNew(q: string, disk: Disk, processed: map<string, FileState>, changed: map<string, Change>)
  {
    q in disk && q in changed && changed[q] == New &&
    q in processed && processed[q].lastModified == disk[q].mtime && processed[q].size == disk[q].size
  }

  /**
   * `q` was processed once while `before`, whose hash was `digest`, was
   * loaded for it: marked changed with its time and size on disk when the
   * file differs, unmarked with `before` kept when it does not.
   */
  ghost predicate Revisited(q: string, disk: Disk, before: FileState, digest: string,
                            processed: map<string, FileState>, changed: map<string, Change>)
  {
    q in disk && q in processed &&
    var differs := Differs(disk[q].mtime, disk[q].size, disk[q].digest, before.lastModified, before.size, digest);
    (differs ==> q in changed && changed[q] == Changed &&
                 processed[q].lastModified == disk[q].mtime && processed[q].size == disk[q].size) &&
    (!differs ==> q !in changed && processed[q] == before)
  }

  /** What processing the files `seen`, in order, leaves for each of them. */
  ghost predicate Visited(seen: seq<string>, disk: Disk, previous: map<string, FileState>, digests: map<string, string>,
                          processed: map<string, FileState>, changed: map<string, Change>)
  {
    (forall q :: q in changed ==> q in seen) &&
    (forall q :: q in seen && (q !in previous || multiset(seen)[q] >= 2) ==> IsNew(q, disk, processed, changed)) &&
    (forall q :: q in seen && q in previous && multiset(seen)[q] == 1 ==>
       q in digests && Revisited(q, disk, previous[q], digests[q], processed, changed))
  }

  /**
   * Processing one more file `p` keeps `Visited`: a file not loaded (new,
   * or seen before) is marked new, a loaded one is revisited, and every
   * other file keeps its state and mark.
   */
  lemma VisitStep(files: seq<string>, i: nat, disk: Disk, previous: map<string, FileState>, digests: map<string, string>,
                  processed0: map<string, FileState>, changed0: map<string, Change>,
                  processed1: map<string, FileState>, changed1: map<string, Change>, wasLoaded: bool)
    requires i < |files| && Visited(files[..i], disk, previous, digests, processed0, changed0)
    requires wasLoaded <==> files[i] in previous && files[i] !in files[..i]
    requires files[i] in processed1
    requires forall q :: q != files[i] ==> (q in processed1 <==> q in processed0) && (q in processed0 ==> processed1[q] == processed0[q])
    requires forall q :: q != files[i] ==> (q in changed1 <==> q in changed0) && (q in changed0 ==> changed1[q] == changed0[q])
    requires !wasLoaded ==> IsNew(files[i], disk, processed1, changed1)
    requires wasLoaded ==> files[i] in digests && Revisited(files[i], disk, previous[files[i]], digests[files[i]], processed1, changed1)
    ensures Visited(files[..i + 1], disk, previous, digests, processed1, changed1)
  {
    var p, seen := files[i], files[..i];
    var seen1 := files[..i + 1];
    assert seen1 == seen + [p];
    assert multiset(seen1) == multiset(seen) + multiset{p};
    forall q | q in changed1
      ensures q in seen1
    {
      if q != p {
        assert q in changed0;
      }
    }
    forall q | q in seen1 && (q !in previous || multiset(seen1)[q] >= 2)
      ensures IsNew(q, disk, processed1, changed1)
    {
      if q != p {
        assert q in seen && multiset(seen1)[q] == multiset(seen)[q];
      } else if q in seen {
        assert !wasLoaded;
      }
    }
    forall q | q in seen1 && q in previous && multiset(seen1)[q] == 1
      ensures q in digests && Revisited(q, disk, previous[q], digests[q], processed1, changed1)
    {
      if q != p {
        assert q in seen && multiset(seen1)[q] == multiset(seen)[q];
      } else {
        assert q !in seen;
      }
    }
  }

  /** `Visited` for the whole list, file by file. */
  lemma VisitedAll(files: seq<string>, disk: Disk, previous: map<string, FileState>, digests: map<string, string>,
                   processed: map<string, FileState>, changed: map<string, Change>)
    requires Visited(files, disk, previous, digests, processed, changed)
    ensures forall q :: q in files && (q !in previous || multiset(files)[q] >= 2) ==> IsNew(q, disk, processed, changed)
    ensures forall q :: q in files && q in previous && multiset(files)[q] == 1 ==>
      q in digests && Revisited(q, disk, previous[q], digests[q], processed, changed)
  {
  }

  /**
   * Processing one more file: the processed paths grow by that file and
   * the loaded ones lose it, the others keeping last build's states.
   */
  lemma KeysStep(files: seq<string>, i: nat, previous: map<string, FileState>,
                 processed0: map<string, FileState>, processed1: map<string, FileState>,
                 loaded0: map<string, FileState>, loaded1: map<string, FileState>)
    requires i < |files|
    requires forall q :: q in processed0 <==> q in files[..i]
    requires forall q :: q in loaded0 <==> q in previous && q !in files[..i]
    requires forall q :: q in loaded0 ==> loaded0[q] == previous[q]
    requires files[i] in loaded0 ==> Dropped(loaded1, loaded0, files[i])
    requires files[i] !in loaded0 ==> loaded1 == loaded0
    requires files[i] in processed1 && forall q :: q != files[i] ==> (q in processed1 <==> q in processed0)
    ensures forall q :: q in processed1 <==> q in files[..i + 1]
    ensures forall q :: q in loaded1 <==> q in previous && q !in files[..i + 1]
    ensures forall q :: q in loaded1 ==> loaded1[q] == previous[q]
  {
    assert files[..i + 1] == files[..i] + [files[i]];
  }
}
