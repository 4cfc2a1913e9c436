/** A project on the local machine (myscripts/src/LAMMPS_Project.py): a folder
    under a base folder holding a copy of the in-file, the jobs created in it,
    and the ways of running them, one (job, seed) unit at a time. */
module Projects {
  import opened Results
  import opened Seqs
  import opened Text
  import opened FileSystems
  import opened InFiles
  import opened Jobs
  import opened Batching

  datatype ProjectError =
    | BaseMissing(basepath: Path)              // RuntimeError: the base folder does not exist
    | ProjectExists(basepath: Path)            // RuntimeError raised for a FileExistsError
    | OsFailed(fsError: FsError)               // raised by `os.mkdir` or `shutil.copy2`
    | InFileRejected(inFileError: InFileError) // raised by `InFile(...)`
    | JobRejected(jobError: JobError)          // raised by the job's constructor
    | BatchRejected(batchError: BatchError)    // ZeroDivisionError or ValueError while batching
    | OnlyMakePlots                            // RuntimeError: the project only makes plots
    | NoJob(name: string)                      // KeyError: no job with this name

  /** `os.path.exists(p)` on a snapshot of the file system. */
  predicate Present(dirs: set<Path>, files: map<Path, seq<string>>, p: Path)
  {
    p in dirs || p in files
  }

  /** Where `__init_file_structure` stops: the base folder must exist, the
      project folder must not, the base folder must be a folder, and
      `shutil.copy2` must find a file to copy into the new folder. */
  function FolderCheck(dirs: set<Path>, files: map<Path, seq<string>>, basepath: Path, outpath: Path,
                       infilePath: Path): Outcome<ProjectError>
  {
    if !Present(dirs, files, basepath) then Fail(BaseMissing(basepath))
    else if Present(dirs, files, outpath) then Fail(ProjectExists(basepath))
    else if basepath in files then Fail(OsFailed(NotADirectory(outpath)))
    else if infilePath in dirs || infilePath == outpath then Fail(OsFailed(IsADirectory(infilePath)))
    else if infilePath !in files then Fail(OsFailed(NotFound(infilePath)))
    else if Basename(infilePath) == "" then Fail(OsFailed(IsADirectory(outpath)))
    else Pass
  }

  /** Whether `InFile(path)` raises on this snapshot, and with what. */
  function OpenCheck(dirs: set<Path>, files: map<Path, seq<string>>, path: Path): Outcome<ProjectError>
  {
    if path !in files then Fail(InFileRejected(Io(if path in dirs then IsADirectory(path) else NotFound(path))))
    else if ParseLines(files[path]).Err? then Fail(InFileRejected(ParseLines(files[path]).error))
    else Pass
  }

  /** Whether `LocalProject(name, infile_path, basepath, only_make_plots)` raises. */
  function ProjectCheck(dirs: set<Path>, files: map<Path, seq<string>>, name: string, infilePath: Path,
                       basepath: Path, onlyMakePlots: bool): Outcome<ProjectError>
  {
    if onlyMakePlots then OpenCheck(dirs, files, infilePath)
    else
      var folder := FolderCheck(dirs, files, basepath, Child(basepath, name), infilePath);
      if folder.Fail? then folder
      else if ParseLines(files[infilePath]).Err? then Fail(InFileRejected(ParseLines(files[infilePath]).error))
      else Pass
  }

  /** The variables a new job is given: a copy of the in-file's free
      variables, with each changed variable overriding or adding its key. */
  function JobVariables(free: map<string, string>, changed: Option<map<string, string>>): (r: map<string, string>)
    ensures changed.None? ==> r == free
    ensures changed.Some? ==> r.Keys == free.Keys + changed.value.Keys
    ensures changed.Some? ==> forall k :: k in changed.value ==> r[k] == changed.value[k]
    ensures forall k :: k in free && (changed.None? || k !in changed.value) ==> r[k] == free[k]
  {
    if changed.None? then free else free + changed.value
  }

  /** One seed of one job: what `get_all_jobs` lists and `run_single_job_seed` runs. */
  datatype JobSeed = JobSeed(job: LammpsJob, seed: nat)

  /** The shell command that runs a unit. */
  function UnitCommand(cmd: string, u: JobSeed): string
  {
    Command(cmd, SeedInFile(u.job.outpath, u.seed, u.job.inFileName))
  }

  /** Runs a unit: the exit status the process oracle answers for its command. */
  function RunUnit(cmd: string, exec: string -> int): JobSeed -> int
  {
    u => exec(UnitCommand(cmd, u))
  }

  lemma RunUnitIs(cmd: string, exec: string -> int, u: JobSeed)
    ensures RunUnit(cmd, exec)(u) == exec(UnitCommand(cmd, u))
  {
  }

  /** Seeds `0 .. n - 1` of a job, in ascending order. */
  function SeedUnits(job: LammpsJob, n: nat): (r: seq<JobSeed>)
    ensures |r| == n
    ensures forall s :: 0 <= s < n ==> r[s] == JobSeed(job, s)
  {
    if n == 0 then [] else SeedUnits(job, n - 1) + [JobSeed(job, n - 1)]
  }

  /** The units of the named jobs, job by job and seed by seed. */
  function AllUnits(order: seq<string>, jobs: map<string, LammpsJob>): seq<JobSeed>
    requires forall k :: k in order ==> k in jobs
  {
    if order == [] then []
    else
      var job := jobs[order[|order| - 1]];
      AllUnits(order[..|order| - 1], jobs) + SeedUnits(job, job.nSeeds)
  }

  /** The sum of the seed counts of the named jobs. */
  function SeedTotal(order: seq<string>, jobs: map<string, LammpsJob>): nat
    requires forall k :: k in order ==> k in jobs
  {
    if order == [] then 0 else SeedTotal(order[..|order| - 1], jobs) + jobs[order[|order| - 1]].nSeeds
  }

  /** One unit per seed of every job. */
  lemma {:induction false} AllUnitsCount(order: seq<string>, jobs: map<string, LammpsJob>)
    requires forall k :: k in order ==> k in jobs
    ensures |AllUnits(order, jobs)| == SeedTotal(order, jobs)
  {
    if order != [] {
      AllUnitsCount(order[..|order| - 1], jobs);
    }
  }

  /** Job `order[i]`'s seed `s` sits after all units of the jobs before it:
      units are ordered by job, then by ascending seed. */
  lemma {:induction false} AllUnitsAt(order: seq<string>, jobs: map<string, LammpsJob>, i: nat, s: nat)
    requires forall k :: k in order ==> k in jobs
    requires i < |order| && s < jobs[order[i]].nSeeds
    ensures SeedTotal(order[..i], jobs) + s < |AllUnits(order, jobs)|
    ensures AllUnits(order, jobs)[SeedTotal(order[..i], jobs) + s] == JobSeed(jobs[order[i]], s)
    decreases |order|
  {
    var n := |order| - 1;
    var init := order[..n];
    AllUnitsCount(init, jobs);
    AllUnitsCount(order, jobs);
    if i < n {
      assert init[..i] == order[..i];
      AllUnitsAt(init, jobs, i, s);
    } else {
      assert order[..i] == init;
    }
  }

  /** The seeds of one job are its units with a seed below the count. */
  lemma SeedUnitsMember(job: LammpsJob, n: nat, u: JobSeed)
    ensures u in SeedUnits(job, n) <==> u.job == job && u.seed < n
  {
    if u.job == job && u.seed < n {
      assert SeedUnits(job, n)[u.seed] == u;
    }
  }

  /** A unit belongs to the list exactly when it is a seed of a listed job. */
  lemma {:induction false} AllUnitsMember(order: seq<string>, jobs: map<string, LammpsJob>, u: JobSeed)
    requires forall k :: k in order ==> k in jobs
    ensures u in AllUnits(order, jobs) <==> exists k :: k in order && u.job == jobs[k] && u.seed < jobs[k].nSeeds
  {
    if order != [] {
      var n := |order| - 1;
      var init, last := order[..n], order[n];
      AllUnitsMember(init, jobs, u);
      SeedUnitsMember(jobs[last], jobs[last].nSeeds, u);
      assert order == init + [last];
    }
  }

  /** A local project. The folder, the in-file and the flags are fixed at
      creation; `jobs` grows as jobs are created, and `jobOrder` remembers the
      order in which the dictionary received its keys. */
  class LocalProject {
    const name: string
    const basepath: Path
    const onlyMakePlots: bool
    const outpath: Path
    const infilePath: Path
    const inFile: InFile
    var jobs: map<string, LammpsJob>
    var jobOrder: seq<string>

    /** Every key once in `jobOrder`, each job under its own name and made in
        this project's folder from this project's in-file. */
    ghost predicate Valid()
      reads this
    {
      && Distinct(jobOrder)
      && (forall k :: k in jobs <==> k in jobOrder)
      && (forall k :: k in jobs ==>
            jobs[k].name == k && jobs[k].parentOutpath == outpath && jobs[k].parentInfile == infilePath)
      && inFile.path == infilePath
    }

    constructor (name: string, basepath: Path, onlyMakePlots: bool, infilePath: Path, inFile: InFile)
      requires inFile.path == infilePath
      ensures this.name == name && this.basepath == basepath && this.onlyMakePlots == onlyMakePlots
      ensures outpath == Child(basepath, name) && this.infilePath == infilePath && this.inFile == inFile
      ensures jobs == map[] && jobOrder == [] && Valid()
    {
      this.name := name;
      this.basepath := basepath;
      this.onlyMakePlots := onlyMakePlots;
      outpath := Child(basepath, name);
      this.infilePath := infilePath;
      this.inFile := inFile;
      jobs := map[];
      jobOrder := [];
    }

    /** `get_all_jobs`: one unit per seed of every job, in the order the jobs
        were created. */
    method GetAllJobs() returns (units: seq<JobSeed>)
      requires Valid()
      ensures units == AllUnits(jobOrder, jobs)
    {
      units := [];
      var i := 0;
      while i < |jobOrder|
        invariant 0 <= i <= |jobOrder|
        invariant units == AllUnits(jobOrder[..i], jobs)
      {
        var job := jobs[jobOrder[i]];
        var seed := 0;
        while seed < job.nSeeds
          invariant 0 <= seed <= job.nSeeds
          invariant units == AllUnits(jobOrder[..i], jobs) + SeedUnits(job, seed)
        {
          units := units + [JobSeed(job, seed)];
          seed := seed + 1;
        }
        assert jobOrder[..i + 1][..i] == jobOrder[..i];
        i := i + 1;
      }
      assert jobOrder[..|jobOrder|] == jobOrder;
    }

    /** `run_single_job_seed`: runs one unit and reports its exit status. */
    method RunSingleJobSeed(u: JobSeed, cmd: string, exec: string -> int) returns (status: int)
      ensures status == exec(UnitCommand(cmd, u)) == RunUnit(cmd, exec)(u)
    {
      status := u.job.Run(cmd, u.seed, exec);
      RunUnitIs(cmd, exec, u);
    }

    /** `run_all_jobs_mpi`: runs every unit under `mpirun`, batch after batch,
        and returns each unit's exit status; a failed unit stops nothing. */
    method RunAllJobsMpi(ncores: int, np: int, lmpCommand: string, exec: string -> int)
      returns (r: Result<seq<int>, ProjectError>)
      requires Valid()
      ensures var mp := MaxParallel(ncores, np);
        && (mp.Err? ==> r == Err(BatchRejected(ZeroDivision)))
        && (mp.Ok? && mp.value == 0 ==> r == Err(BatchRejected(ZeroBatchSize)))
        && (mp.Ok? && mp.value > 0 ==> r == Ok(Map(RunUnit(MpiCommand(np, lmpCommand), exec), AllUnits(jobOrder, jobs))))
        && (mp.Ok? && mp.value < 0 ==> r == Ok([]))
    {
      var mp := MaxParallel(ncores, np);
      if mp.Err? {
        return Err(BatchRejected(mp.error));
      }
      var cmd := MpiCommand(np, lmpCommand);
      var units := GetAllJobs();
      var batches := Batches(units, mp.value);
      if batches.Err? {
        return Err(BatchRejected(batches.error));
      }
      var statuses := RunBatches(batches.value, cmd, exec);
      BatchesCover(units, mp.value);
      r := Ok(statuses);
    }

    /** The batches one after another, each unit of a batch in turn. */
    method RunBatches(batches: seq<seq<JobSeed>>, cmd: string, exec: string -> int) returns (statuses: seq<int>)
      ensures statuses == Map(RunUnit(cmd, exec), Concat(batches))
    {
      statuses := [];
      var i := 0;
      while i < |batches|
        invariant 0 <= i <= |batches|
        invariant statuses == Map(RunUnit(cmd, exec), Concat(batches[..i]))
      {
        var batch := batches[i];
        var part := RunBatch(batch, cmd, exec);
        assert batches[..i + 1] == batches[..i] + [batch];
        ConcatAppend(batches[..i], batch);
        MapConcat(RunUnit(cmd, exec), Concat(batches[..i]), batch);
        statuses := statuses + part;
        i := i + 1;
      }
      assert batches[..i] == batches;
    }

    /** One batch: every unit in turn. */
    method RunBatch(batch: seq<JobSeed>, cmd: string, exec: string -> int) returns (statuses: seq<int>)
      ensures statuses == Map(RunUnit(cmd, exec), batch)
    {
      statuses := [];
      var j := 0;
      while j < |batch|
        invariant 0 <= j <= |batch|
        invariant statuses == Map(RunUnit(cmd, exec), batch[..j])
      {
        var status := RunSingleJobSeed(batch[j], cmd, exec);
        PrefixStep(batch, j);
        MapAppend(RunUnit(cmd, exec), batch[..j], batch[j]);
        statuses := statuses + [status];
        j := j + 1;
      }
      assert batch[..j] == batch;
    }

    /** What `run_job_serial(job_name, cmd)` ends with: the exit statuses of
        the job's seeds, or the error it raises. */
    function SerialRun(jobName: string, cmd: string, exec: string -> int): Result<seq<int>, ProjectError>
      reads this
    {
      if onlyMakePlots then Err(OnlyMakePlots)
      else if jobName !in jobs then Err(NoJob(jobName))
      else Ok(Map(RunUnit(cmd, exec), SeedUnits(jobs[jobName], jobs[jobName].nSeeds)))
    }

    /** `run_job_serial`: runs every seed of one job in ascending order and
        returns their exit statuses; a failed seed stops nothing. */
    method RunJobSerial(jobName: string, cmd: string, exec: string -> int) returns (r: Result<seq<int>, ProjectError>)
      ensures onlyMakePlots ==> r == Err(OnlyMakePlots)
      ensures !onlyMakePlots && jobName !in jobs ==> r == Err(NoJob(jobName))
      ensures !onlyMakePlots && jobName in jobs ==>
        r == Ok(Map(RunUnit(cmd, exec), SeedUnits(jobs[jobName], jobs[jobName].nSeeds)))
      ensures r == SerialRun(jobName, cmd, exec)
    {
      if onlyMakePlots {
        return Err(OnlyMakePlots);
      }
      if jobName !in jobs {
        return Err(NoJob(jobName));
      }
      var job := jobs[jobName];
      var statuses := [];
      var seed := 0;
      while seed < job.nSeeds
        invariant 0 <= seed <= job.nSeeds
        invariant statuses == Map(RunUnit(cmd, exec), SeedUnits(job, seed))
      {
        var status := job.Run(cmd, seed, exec);
        RunUnitIs(cmd, exec, JobSeed(job, seed));
        MapAppend(RunUnit(cmd, exec), SeedUnits(job, seed), JobSeed(job, seed));
        statuses := statuses + [status];
        seed := seed + 1;
      }
      r := Ok(statuses);
    }

    /** `new_job(name, n_seeds, seed_variables, changed_vars)`: a job under the
        stripped name unless one exists already; `draws` are the random seed
        values the job's seeds receive. */
    method NewJob(fs: FileSystem, jobName: string, nSeeds: nat, seedVariables: seq<string>,
                  changed: Option<map<string, string>>, draws: seq<seq<nat>>) returns (r: Outcome<ProjectError>)
      requires Valid() && fs.Valid() && Draws(draws, nSeeds, |seedVariables|)
      modifies this, fs
      ensures Valid() && fs.Valid()
      ensures inFile.Table() == old(inFile.Table())
      ensures var n := Strip(jobName);
        n in old(jobs) ==> r == Pass && jobs == old(jobs) && jobOrder == old(jobOrder)
                           && fs.dirs == old(fs.dirs) && fs.files == old(fs.files)
      ensures var n := Strip(jobName);
        var vars := Some(JobVariables(inFile.freeVariables, changed));
        var check := Jobs.CreateCheck(old(fs.dirs), old(fs.files), outpath, infilePath, n, nSeeds, vars, seedVariables);
        n !in old(jobs) ==>
          && (check.Fail? ==> r == Fail(JobRejected(check.error)) && jobs == old(jobs) && jobOrder == old(jobOrder))
          && (check.Pass? ==>
                && r == Pass && jobOrder == old(jobOrder) + [n]
                && n in jobs && jobs == old(jobs)[n := jobs[n]] && fresh(jobs[n])
                && jobs[n].Holds(outpath, infilePath, n, nSeeds, seedVariables, vars))
    ensures var n := Strip(jobName);
      n !in old(jobs) ==>
        CreateEffect(old(fs.dirs), old(fs.files), fs.dirs, fs.files, outpath, infilePath, n, nSeeds,
                     Some(JobVariables(inFile.freeVariables, changed)), seedVariables, draws, r.Pass?)
    {
      var n := Strip(jobName);
      if n in jobs {
        return Pass;
      }
      var vars := JobVariables(inFile.freeVariables, changed);
      var made := MakeJob(fs, outpath, infilePath, n, nSeeds, seedVariables, Some(vars), draws);
      if made.Err? {
        return Fail(JobRejected(made.error));
      }
      Register(n, made.value);
      r := Pass;
    }

    /** `self.jobs[name] = job` for a new name. */
    method Register(n: string, job: LammpsJob)
      requires Valid() && n !in jobs && job.name == n && job.parentOutpath == outpath && job.parentInfile == infilePath
      modifies this
      ensures Valid() && jobs == old(jobs)[n := job] && jobOrder == old(jobOrder) + [n]
    {
      jobs := jobs[n := job];
      jobOrder := jobOrder + [n];
    }
  }

  /** The job's constructor, seen from the project: whether it raises, and
      the job it makes. */
  method MakeJob(fs: FileSystem, parentOutpath: Path, parentInfile: Path, name: string, nSeeds: nat,
                 seedVariables: seq<string>, variables: Option<map<string, string>>, draws: seq<seq<nat>>)
    returns (r: Result<LammpsJob, JobError>)
    requires fs.Valid() && Draws(draws, nSeeds, |seedVariables|)
    modifies fs
    ensures fs.Valid()
    ensures var check := Jobs.CreateCheck(old(fs.dirs), old(fs.files), parentOutpath, parentInfile, name, nSeeds, variables, seedVariables);
      && (check.Fail? ==> r == Err(check.error))
      && (check.Pass? ==> r.Ok? && fresh(r.value) && r.value.Holds(parentOutpath, parentInfile, name, nSeeds, seedVariables, variables))
    ensures CreateEffect(old(fs.dirs), old(fs.files), fs.dirs, fs.files, parentOutpath, parentInfile, name, nSeeds,
                         variables, seedVariables, draws, r.Ok?)
  {
    r := Jobs.Create(fs, parentOutpath, parentInfile, name, nSeeds, seedVariables, variables, draws);
  }

  /** The folders after `__init_file_structure`: the project folder is added
      when `mkdir` can make it. */
  ghost function ProjectDirs(dirs: set<Path>, files: map<Path, seq<string>>, basepath: Path, name: string): set<Path>
  {
    var outpath := Child(basepath, name);
    if Present(dirs, files, basepath) && basepath !in files && !Present(dirs, files, outpath)
    then dirs + {outpath} else dirs
  }

  /** The files after `__init_file_structure`: the in-file is copied into the
      project folder when both steps succeed. */
  ghost function ProjectFiles(dirs: set<Path>, files: map<Path, seq<string>>, basepath: Path, name: string,
                              infilePath: Path): map<Path, seq<string>>
  {
    var outpath := Child(basepath, name);
    if FolderCheck(dirs, files, basepath, outpath, infilePath).Pass?
    then files[Child(outpath, Basename(infilePath)) := files[infilePath]]
    else files
  }

  /** `LocalProject(name, infile_path, basepath, only_make_plots)`: unless the
      project only makes plots, makes the project folder under `basepath`,
      copies the in-file into it and from then on uses that copy; then reads
      the in-file's free variables. */
  method CreateProject(fs: FileSystem, name: string, infilePath: Path, basepath: Path, onlyMakePlots: bool)
    returns (r: Result<LocalProject, ProjectError>)
    requires fs.Valid()
    modifies fs
    ensures fs.Valid()
    ensures var check := ProjectCheck(old(fs.dirs), old(fs.files), name, infilePath, basepath, onlyMakePlots);
      && (check.Fail? ==> r == Err(check.error))
      && (check.Pass? ==> r.Ok?)
    ensures !onlyMakePlots && !old(fs.Exists(basepath)) ==> r == Err(BaseMissing(basepath))
    ensures !onlyMakePlots && old(fs.Exists(basepath)) && old(fs.Exists(Child(basepath, name))) ==>
      r == Err(ProjectExists(basepath))
    ensures r.Ok? ==>
      && fresh(r.value) && r.value.Valid() && r.value.jobs == map[] && r.value.jobOrder == []
      && r.value.name == name && r.value.basepath == basepath && r.value.onlyMakePlots == onlyMakePlots
      && r.value.outpath == Child(basepath, name)
      && r.value.infilePath == (if onlyMakePlots then infilePath else Child(Child(basepath, name), Basename(infilePath)))
      && r.value.infilePath in fs.files && ParseLines(fs.files[r.value.infilePath]) == Ok(r.value.inFile.Table())
    ensures onlyMakePlots ==> fs.dirs == old(fs.dirs) && fs.files == old(fs.files)
    ensures !onlyMakePlots ==>
      && fs.dirs == ProjectDirs(old(fs.dirs), old(fs.files), basepath, name)
      && fs.files == ProjectFiles(old(fs.dirs), old(fs.files), basepath, name, infilePath)
  {
    var path := infilePath;
    if !onlyMakePlots {
      var made := InitFileStructure(fs, name, infilePath, basepath);
      if made.Err? {
        return Err(made.error);
      }
      path := made.value;
    }
    var parsed := Open(fs, path);
    if parsed.Err? {
      return Err(InFileRejected(parsed.error));
    }
    var project := new LocalProject(name, basepath, onlyMakePlots, path, parsed.value);
    r := Ok(project);
  }

  /** `__init_file_structure`: returns the path of the copied in-file. */
  method InitFileStructure(fs: FileSystem, name: string, infilePath: Path, basepath: Path)
    returns (r: Result<Path, ProjectError>)
    requires fs.Valid()
    modifies fs
    ensures fs.Valid()
    ensures var outpath := Child(basepath, name);
      var check := FolderCheck(old(fs.dirs), old(fs.files), basepath, outpath, infilePath);
      && (check.Fail? ==> r == Err(check.error))
      && (check.Pass? ==> r == Ok(Child(outpath, Basename(infilePath))))
      && fs.dirs == (if old(Present(fs.dirs, fs.files, basepath) && basepath !in fs.files && !Present(fs.dirs, fs.files, outpath))
                     then old(fs.dirs) + {outpath} else old(fs.dirs))
      && fs.files == (if check.Pass? then old(fs.files)[Child(outpath, Basename(infilePath)) := old(fs.files)[infilePath]]
                      else old(fs.files))
  {
    var outpath := Child(basepath, name);
    if !fs.Exists(basepath) {
      return Err(BaseMissing(basepath));
    }
    if fs.Exists(outpath) {
      return Err(ProjectExists(basepath));
    }
    assert outpath != [] && Parent(outpath) == basepath;
    fs.NothingBelowMissing(outpath, Child(outpath, Basename(infilePath)));
    var made := fs.Mkdir(outpath);
    if made.Fail? {
      return Err(OsFailed(made.error));
    }
    var copied := fs.Copy(infilePath, outpath);
    if copied.Err? {
      return Err(OsFailed(copied.error));
    }
    r := Ok(copied.value);
  }
}
