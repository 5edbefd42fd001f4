/**
 * The result store's write path (`store_crawled_data`): validate the job id,
 * then the data, name the file after the current second, create the job
 * directory and write the JSON text. The file system is a set of directories
 * and a map from (directory, file name) to the value whose JSON text the file
 * holds; the clock and the operating system's failures are parameters.
 */
module Storage {
  import opened Text
  import opened Maybe
  import opened JsonValue
  import opened Timestamps

  /** The base directory every job directory is created under. */
  const StorageDir := "data"

  const JobIdError := "Error: job_id must be a non-empty string."
  const NotSerializablePrefix := "Error: data is not JSON serializable: "
  const MakedirsErrorPrefix := "Error: failed to create directory "
  const WriteErrorPrefix := "Error: failed to write data to file "

  /** `posixpath.join(a, b)` for two components. */
  function Join(a: string, b: string): (p: string)
    ensures StartsWith(b, "/") ==> p == b
    ensures !StartsWith(b, "/") && a != [] ==> StartsWith(p, a) && EndsWith(p, b)
    ensures !StartsWith(b, "/") && a != [] ==> EndsWith(p, "/" + b) || EndsWith(a, "/")
  {
    if StartsWith(b, "/") then b
    else if a == "" || EndsWith(a, "/") then a + b
    else
      assert (a + "/" + b)[..|a|] == a;
      assert (a + "/" + b)[|a + "/" + b| - |b|..] == b;
      a + "/" + b
  }

  /** The characters Python's `str.strip()` removes (those `str.isspace()` accepts). */
  predicate IsSpace(c: char) {
    || '\U{9}' <= c <= '\U{D}'
    || '\U{1C}' <= c <= '\U{20}'
    || c == '\U{85}' || c == '\U{A0}' || c == '\U{1680}'
    || '\U{2000}' <= c <= '\U{200A}'
    || c == '\U{2028}' || c == '\U{2029}' || c == '\U{202F}' || c == '\U{205F}' || c == '\U{3000}'
  }

  /** `not s.strip()`: the string is empty or all whitespace. */
  predicate Blank(s: string) {
    forall i :: 0 <= i < |s| ==> IsSpace(s[i])
  }

  /** `isinstance(job_id, str) and job_id.strip()`. */
  predicate ValidJobId(jobId: Data) {
    jobId.Str? && !Blank(jobId.s)
  }

  /** The text of the TypeError `json.dumps` raises for an object of type `typeName`. */
  function TypeErrorText(typeName: string): string {
    "Object of type " + typeName + " is not JSON serializable"
  }

  /** The file name a write at `now` gets: strftime("%Y%m%d%H%M%S") + ".json". */
  function FileName(now: Instant): (name: string)
    requires Valid(now)
    ensures |name| == 19 && EndsWith(name, ".json")
    ensures AllDigits(name[..14]) && name[..14] == Stamp14(now)
  {
    var name := Stamp14(now) + ".json";
    assert name[..14] == Stamp14(now);
    assert name[14..] == ".json";
    name
  }

  /** The directory a job's files go to: `os.path.join(STORAGE_DIR, job_id)`. */
  function JobDirectory(job: string): string {
    Join(StorageDir, job)
  }

  /**
   * Failures the operating system may report: from `os.makedirs`, from
   * `open` for writing, or from the write or the flush at close once `open`
   * has truncated the file.
   */
  datatype IoFault = NoFault | MakedirsFails(reason: string) | OpenFails(reason: string) | WriteFails(reason: string)

  /**
   * What a stored file holds: the value written whole, or what a write that
   * failed part-way left behind (an empty or cut-off text, which no longer
   * holds any earlier record of the file).
   */
  datatype Content = Whole(value: Data) | Partial

  /** The storage tree under `StorageDir`. */
  class DataDir {
    var dirs: set<string>
    var files: map<(string, string), Content>

    constructor ()
      ensures dirs == {} && files == map[]
    {
      dirs := {};
      files := map[];
    }

    /**
     * `store_crawled_data(job_id, data)` at time `now`. The result is the
     * written file's path or an error message. A call that fails before
     * `open` changes no file; a directory created before a failed open
     * stays; a write that fails after `open` leaves the file cut off.
     */
    method StoreCrawledData(jobId: Data, data: Data, now: Instant, fault: IoFault) returns (result: string)
      requires Valid(now)
      modifies this
      ensures !ValidJobId(jobId) ==>
                result == JobIdError && dirs == old(dirs) && files == old(files)
      ensures ValidJobId(jobId) && !Serializable(data) ==>
                && result == NotSerializablePrefix + TypeErrorText(Unencodable(data).value)
                && dirs == old(dirs) && files == old(files)
      ensures ValidJobId(jobId) && Serializable(data) && fault.MakedirsFails? ==>
                && result == MakedirsErrorPrefix + JobDirectory(jobId.s) + ": " + fault.reason
                && dirs == old(dirs) && files == old(files)
      ensures ValidJobId(jobId) && Serializable(data) && fault.OpenFails? ==>
                && result == WriteErrorPrefix + Join(JobDirectory(jobId.s), FileName(now)) + ": " + fault.reason
                && dirs == old(dirs) + {JobDirectory(jobId.s)} && files == old(files)
      ensures ValidJobId(jobId) && Serializable(data) && fault.WriteFails? ==>
                && result == WriteErrorPrefix + Join(JobDirectory(jobId.s), FileName(now)) + ": " + fault.reason
                && dirs == old(dirs) + {JobDirectory(jobId.s)}
                && files == old(files)[(JobDirectory(jobId.s), FileName(now)) := Partial]
      ensures ValidJobId(jobId) && Serializable(data) && fault.NoFault? ==>
                && result == Join(JobDirectory(jobId.s), FileName(now))
                && dirs == old(dirs) + {JobDirectory(jobId.s)}
                && files == old(files)[(JobDirectory(jobId.s), FileName(now)) := Whole(data)]
    {
      if !(jobId.Str? && !Blank(jobId.s)) {
        return JobIdError;
      }
      var unencodable := Unencodable(data);
      if unencodable.Some? {
        return NotSerializablePrefix + TypeErrorText(unencodable.value);
      }
      result := WriteJobFile(JobDirectory(jobId.s), FileName(now), data, fault);
    }

    /**
     * The part of the write after validation: create the job directory, then
     * open the file in it and write the value.
     */
    method WriteJobFile(directory: string, filename: string, data: Data, fault: IoFault) returns (result: string)
      modifies this
      ensures fault.MakedirsFails? ==>
                result == MakedirsErrorPrefix + directory + ": " + fault.reason && dirs == old(dirs) && files == old(files)
      ensures fault.OpenFails? ==>
                result == WriteErrorPrefix + Join(directory, filename) + ": " + fault.reason
                && dirs == old(dirs) + {directory} && files == old(files)
      ensures fault.WriteFails? ==>
                result == WriteErrorPrefix + Join(directory, filename) + ": " + fault.reason
                && dirs == old(dirs) + {directory} && files == old(files)[(directory, filename) := Partial]
      ensures fault.NoFault? ==>
                result == Join(directory, filename)
                && dirs == old(dirs) + {directory} && files == old(files)[(directory, filename) := Whole(data)]
    {
      if fault.MakedirsFails? {
        return MakedirsErrorPrefix + directory + ": " + fault.reason;
      }
      dirs := dirs + {directory};
      var filePath := Join(directory, filename);
      if fault.OpenFails? {
        return WriteErrorPrefix + filePath + ": " + fault.reason;
      }
      if fault.WriteFails? {
        files := files[(directory, filename) := Partial];
        return WriteErrorPrefix + filePath + ": " + fault.reason;
      }
      files := files[(directory, filename) := Whole(data)];
      result := filePath;
    }
  }

  /**
   * A successful write's path can be told from the error strings: it never
   * starts with "Error"; it lies under the job directory, which is
   * `data/<job>` unless the job id is an absolute path; and the file name is
   * its last component.
   */
  lemma StoredPathIsNotAnError(job: string, now: Instant)
    requires Valid(now) && job != ""
    ensures JobDirectory(job) == if StartsWith(job, "/") then job else "data/" + job
    ensures StartsWith(Join(JobDirectory(job), FileName(now)), JobDirectory(job))
    ensures EndsWith(Join(JobDirectory(job), FileName(now)), "/" + FileName(now))
    ensures !StartsWith(Join(JobDirectory(job), FileName(now)), "Error")
  {
    var name := FileName(now);
    assert name[0] == name[..14][0];
    assert name[0] != '/';
    JoinShape(JobDirectory(job), name);
  }

  lemma JoinShape(dir: string, name: string)
    requires dir != [] && (dir[0] == 'd' || dir[0] == '/')
    requires name != [] && name[0] != '/'
    ensures StartsWith(Join(dir, name), dir)
    ensures EndsWith(Join(dir, name), "/" + name)
    ensures !StartsWith(Join(dir, name), "Error")
  {
    var path := Join(dir, name);
    assert !StartsWith(name, "/");
    if EndsWith(dir, "/") {
      assert path == dir + name;
      assert |path| - |name| - 1 == |dir| - 1;
      assert path[|dir| - 1..] == dir[|dir| - 1..] + name;
    } else {
      assert path == dir + "/" + name;
      assert path[|path| - |name| - 1..] == "/" + name;
    }
    assert path[0] == dir[0];
  }

  /**
   * Two writes to the same job hit the same file exactly when they happen in
   * the same second; the later one then overwrites the earlier.
   */
  lemma SameSecondSameFile(a: Instant, b: Instant)
    requires Valid(a) && Valid(b)
    ensures FileName(a) == FileName(b) <==> SameSecond(a, b)
  {
    StampCollision(a, b);
    if FileName(a) == FileName(b) {
      assert Stamp14(a) == FileName(a)[..14] == FileName(b)[..14] == Stamp14(b);
    }
  }
}
