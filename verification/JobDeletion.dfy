/** server/database/mysql_delete.c: deleting a job as a sequence of statements over the tables
    of the catalogue, and the rows that a backup adds (server/src/dedupHandle.c). */
module JobDeletion {
  import opened Types

  datatype FileRow = FileRow(versionCount: nat, path: string, hash: Fingerprint)

  /** The key of a VersionFile row: primary key (FileId, JobId). */
  datatype Version = Version(file: nat, job: nat)

  /** The jobs that refer to a file. */
  ghost function Refs(versions: set<Version>, file: nat): set<nat> {
    set v | v in versions && v.file == file :: v.job
  }

  /** The reference counts are right, and no VersionFile row dangles. */
  ghost predicate Consistent(files: map<nat, FileRow>, versions: set<Version>, jobs: map<nat, nat>) {
    && (forall f :: f in files ==> files[f].versionCount == |Refs(versions, f)|)
    && forall v :: v in versions ==> v.file in files && v.job in jobs
  }

  /** `db_get_job_files`: what a restore of the job gets. */
  ghost function JobFiles(files: map<nat, FileRow>, versions: set<Version>, job: nat): set<(string, Fingerprint)> {
    set v | v in versions && v.job == job && v.file in files :: (files[v.file].path, files[v.file].hash)
  }

  lemma RefsAdd(versions: set<Version>, v: Version, file: nat)
    requires v !in versions
    ensures |Refs(versions + {v}, file)| == |Refs(versions, file)| + if v.file == file then 1 else 0
  {
    if v.file == file {
      assert v.job !in Refs(versions, file) by {
        assert forall w :: w in versions && w.file == file && w.job == v.job ==> w == v;
      }
      assert Refs(versions + {v}, file) == Refs(versions, file) + {v.job};
    } else {
      assert Refs(versions + {v}, file) == Refs(versions, file);
    }
  }

  lemma RefsDrop(versions: set<Version>, job: nat, file: nat)
    ensures var rest := set v | v in versions && v.job != job;
            && Refs(rest, file) == Refs(versions, file) - {job}
            && |Refs(rest, file)| == |Refs(versions, file)| - if Version(file, job) in versions then 1 else 0
  {
    var rest := set v | v in versions && v.job != job;
    var refs := Refs(versions, file);
    assert Refs(rest, file) == refs - {job};
    if Version(file, job) in versions {
      assert job in refs;
    } else {
      assert job !in refs by {
        assert forall v :: v in versions && v.file == file && v.job == job ==> v == Version(file, job);
      }
    }
  }

  class Catalogue {
    var files: map<nat, FileRow>
    var versions: set<Version>
    /** Each job's object. */
    var jobs: map<nat, nat>
    var objects: set<nat>
    /** `AUTO_INCREMENT` of the File table. */
    var nextFile: nat

    ghost predicate Valid()
      reads this
    {
      && Consistent(files, versions, jobs)
      && (forall f :: f in files ==> f < nextFile)
      && jobs.Values <= objects
    }

    constructor ()
      ensures Valid() && files == map[] && jobs == map[]
    {
      files, versions, jobs, objects, nextFile := map[], {}, map[], {}, 1;
    }

    /** The start of a backup: a new object and a new job. */
    method NewJob(job: nat, object_: nat)
      requires Valid() && job !in jobs && object_ !in objects
      modifies this`jobs, this`objects
      ensures Valid() && jobs == old(jobs)[job := object_] && objects == old(objects) + {object_}
    {
      jobs := jobs[job := object_];
      objects := objects + {object_};
    }

    /** One file of a backup: a File row with one version, and the VersionFile row. */
    method RecordFile(job: nat, path: string, hash: Fingerprint)
      requires Valid() && job in jobs
      modifies this`files, this`versions, this`nextFile
      ensures Valid()
      ensures JobFiles(files, versions, job) == JobFiles(old(files), old(versions), job) + {(path, hash)}
      ensures forall j :: j != job ==> JobFiles(files, versions, j) == JobFiles(old(files), old(versions), j)
    {
      var file := nextFile;
      ghost var v := Version(file, job);
      assert v !in versions && Refs(versions, file) == {};
      forall f
        ensures |Refs(versions + {v}, f)| == |Refs(versions, f)| + if f == file then 1 else 0
      {
        RefsAdd(versions, v, f);
      }
      FilesAdd(files, versions, v, FileRow(1, path, hash));
      files := files[file := FileRow(1, path, hash)];
      versions := versions + {Version(file, job)};
      nextFile := nextFile + 1;
    }

    /** `db_delete_job`, statement by statement. */
    method DeleteJob(job: nat)
      requires Valid()
      modifies this`files, this`versions, this`jobs, this`objects
      ensures Valid() && jobs == old(jobs) - {job}
      ensures versions == set v | v in old(versions) && v.job != job
      ensures files.Keys == set f | f in old(files)
              && (Version(f, job) in old(versions) ==> Refs(old(versions), f) != {job})
      ensures forall f :: f in files ==> files[f].path == old(files)[f].path && files[f].hash == old(files)[f].hash
      ensures objects == set o | o in old(objects) && o in jobs.Values
      ensures forall j :: j != job ==> JobFiles(files, versions, j) == JobFiles(old(files), old(versions), j)
      ensures JobFiles(files, versions, job) == {}
    {
      hide Consistent, Refs, JobFiles, Survives;
      ghost var files0 := files;
      DeleteFileRows(job);
      versions := set v | v in versions && v.job != job;
      jobs := jobs - {job};
      objects := set o | o in objects && o in jobs.Values;
      DeletionConsistent(files0, old(versions), old(jobs), job, files, versions);
      FilesKept(files0, old(versions), old(jobs), files, versions, job);
    }

    /** The first two statements, on the File table. */
    method DeleteFileRows(job: nat)
      modifies this`files
      ensures files.Keys == set f | f in old(files) && Survives(old(files)[f], Version(f, job) in versions)
      ensures files.Keys <= old(files).Keys
      ensures forall f :: f in files ==>
                files[f] == if old(files)[f].versionCount > 1 && Version(f, job) in versions
                            then old(files)[f].(versionCount := old(files)[f].versionCount - 1) else old(files)[f]
    {
      var mine := FilesOf(versions, job);
      files := map f | f in files && !(files[f].versionCount == 1 && f in mine) :: files[f];
      files := map f | f in files ::
        if files[f].versionCount > 1
            && f in mine then files[f].(versionCount := files[f].versionCount - 1) else files[f];
    }
  }

  /** The sub-select of the statements. */
  function FilesOf(versions: set<Version>, job: nat): (fs: set<nat>)
    ensures forall f :: f in fs <==> Version(f, job) in versions
  {
    set v | v in versions && v.job == job :: v.file
  }

  /** The row that the first two statements leave of a file, if they leave one. */
  ghost predicate Survives(row: FileRow, mine: bool) {
    !(row.versionCount == 1 && mine)
  }

  lemma DeletionConsistent(files: map<nat, FileRow>, versions: set<Version>, jobs: map<nat, nat>, job: nat,
                           files': map<nat, FileRow>, versions': set<Version>)
    requires Consistent(files, versions, jobs)
    requires files'.Keys == set f | f in files && Survives(files[f], Version(f, job) in versions)
    requires forall f :: f in files' ==>
               files'[f] == if files[f].versionCount > 1 && Version(f, job) in versions
                            then files[f].(versionCount := files[f].versionCount - 1) else files[f]
    requires versions' == set v | v in versions && v.job != job
    ensures Consistent(files', versions', jobs - {job})
    ensures files'.Keys == set f | f in files && (Version(f, job) in versions ==> Refs(versions, f) != {job})
  {
    forall f | f in files
      ensures |Refs(versions', f)| == |Refs(versions, f)| - if Version(f, job) in versions then 1 else 0
      ensures Version(f, job) in versions ==>
              files[f].versionCount >= 1 && (files[f].versionCount == 1 <==> Refs(versions, f) == {job})
    {
      RefsDrop(versions, job, f);
      if Version(f, job) in versions {
        OnlyRef(versions, f, job);
      }
    }
    forall v | v in versions'
      ensures v.file in files'
    {
      assert v.job in Refs(versions, v.file);
    }
  }

  lemma OnlyRef(versions: set<Version>, file: nat, job: nat)
    requires Version(file, job) in versions
    ensures |Refs(versions, file)| >= 1
    ensures |Refs(versions, file)| == 1 <==> Refs(versions, file) == {job}
  {
    var refs := Refs(versions, file);
    assert job in refs;
    if |refs| == 1 {
      assert |refs - {job}| == 0;
      assert refs == {job};
    }
  }

  lemma FilesAdd(files: map<nat, FileRow>, versions: set<Version>, v: Version, row: FileRow)
    requires v.file !in files && forall w :: w in versions ==> w.file in files
    ensures var files', versions' := files[v.file := row], versions + {v};
            && JobFiles(files', versions', v.job) == JobFiles(files, versions, v.job) + {(row.path, row.hash)}
            && forall j :: j != v.job ==> JobFiles(files', versions', j) == JobFiles(files, versions, j)
  {
    var files', versions' := files[v.file := row], versions + {v};
    assert forall w :: w in versions ==> files'[w.file] == files[w.file];
    assert v in versions';
    forall j
      ensures JobFiles(files', versions', j) ==
              JobFiles(files, versions, j) + if j == v.job then {(row.path, row.hash)} else {}
    {
      var a, b := JobFiles(files', versions', j),
      JobFiles(files, versions, j) + if j == v.job then {(row.path, row.hash)} else {};
      forall x
        ensures x in a <==> x in b
      {
        if x in JobFiles(files, versions, j) {
          var w :| w in versions && w.job == j && w.file in files && x == (files[w.file].path, files[w.file].hash);
          assert w in versions';
        }
      }
    }
  }

  /** What the other jobs can restore is not affected. */
  lemma FilesKept(files: map<nat, FileRow>, versions: set<Version>, jobs: map<nat, nat>,
                  files': map<nat, FileRow>, versions': set<Version>, job: nat)
    requires Consistent(files, versions, jobs) && Consistent(files', versions', jobs - {job})
    requires versions' == set v | v in versions && v.job != job
    requires forall f :: f in files' ==>
             f in files && files'[f].path == files[f].path && files'[f].hash == files[f].hash
    ensures forall j :: j != job ==> JobFiles(files', versions', j) == JobFiles(files, versions, j)
    ensures JobFiles(files', versions', job) == {}
  {
    forall j | j != job
      ensures JobFiles(files', versions', j) == JobFiles(files, versions, j)
    {
      var a, b := JobFiles(files', versions', j), JobFiles(files, versions, j);
      forall x
        ensures x in a <==> x in b
      {
        if x in b {
          var w :| w in versions && w.job == j && w.file in files && x == (files[w.file].path, files[w.file].hash);
          assert w in versions';
        }
      }
    }
  }

  /** A backup and the deletion of its job: nothing of the job is left, and every other job has
      the files that it had. */
  method BackupThenDelete(c: Catalogue, job: nat, object_: nat, list: seq<(string, Fingerprint)>)
    requires c.Valid() && job !in c.jobs && object_ !in c.objects
    modifies c
    ensures c.Valid() && c.jobs == old(c.jobs)
    ensures forall j :: JobFiles(c.files, c.versions,
                                 j) == if j == job then {} else old(JobFiles(c.files, c.versions, j))
  {
    hide JobFiles, Consistent, Refs;
    c.NewJob(job, object_);
    for k := 0 to |list|
      invariant c.Valid() && c.jobs == old(c.jobs)[job := object_]
      invariant forall j :: j != job ==> JobFiles(c.files, c.versions, j) == old(JobFiles(c.files, c.versions, j))
    {
      c.RecordFile(job, list[k].0, list[k].1);
    }
    c.DeleteJob(job);
    assert c.jobs == old(c.jobs);
  }
}
