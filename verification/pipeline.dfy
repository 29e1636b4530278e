/**
 * The pipeline builder page: programs are dragged onto a canvas one after
 * another, each accepted only when its input type is the previous program's
 * output type; a file is uploaded for the first program; submitting posts the
 * file and the chain's program file names to the backend.
 */
module Pipeline {
  import opened Wrappers
  import opened Text
  import opened Entities
  import opened Catalog

  /** A file picked in the upload input. */
  datatype File = File(name: string)

  /** The inline errors the page shows, by translation key and its argument. */
  datatype FileError =
    | OutputMismatch(title: string)     // file_error_output_mismatch
    | InputMismatch(inputType: string)  // file_error_input_mismatch
    | SelectFile                        // select_file_error

  /** The form `handleSubmit` posts: the input file and the programs' file names, in chain order. */
  datatype PipelineRequest = PipelineRequest(inputFile: File, programs: seq<string>)

  /**
   * How the pipeline request ends: the output file's URL; a rejection whose
   * response body carries `error` (`None` when it has no such field, so the
   * state receives `undefined`); or a rejection with no response at all
   * (a network error), where reading `error.response.data` throws inside the
   * handler before any state is set.
   */
  datatype Reply = Created(fileUrl: string) | Failed(error: Option<string>) | NoResponse

  /** The program at `i` hands its output type on as the input type of the program after it. */
  ghost predicate Linked(chain: seq<Program>, i: int)
    requires 0 <= i < |chain| - 1
  {
    chain[i].outputType == chain[i + 1].inputType
  }

  /** Every program's output type is the next program's input type. */
  ghost predicate Chained(chain: seq<Program>) {
    forall i :: 0 <= i < |chain| - 1 ==> Linked(chain, i)
  }

  /** A chain can be cut anywhere: it is chained iff both parts are and they meet at a matching type. */
  lemma {:induction false} ChainedAppend(a: seq<Program>, b: seq<Program>)
    ensures Chained(a + b) <==>
      Chained(a) && Chained(b) && (a == [] || b == [] || a[|a| - 1].outputType == b[0].inputType)
  {
    var c := a + b;
    if Chained(c) {
      forall i | 0 <= i < |a| - 1 ensures Linked(a, i) {
        assert Linked(c, i);
      }
      forall i | 0 <= i < |b| - 1 ensures Linked(b, i) {
        assert Linked(c, |a| + i);
      }
      if a != [] && b != [] {
        assert Linked(c, |a| - 1);
      }
    }
    if Chained(a) && Chained(b) && (a == [] || b == [] || a[|a| - 1].outputType == b[0].inputType) {
      forall i | 0 <= i < |c| - 1 ensures Linked(c, i) {
        if i < |a| - 1 {
          assert Linked(a, i);
        } else if i >= |a| {
          assert Linked(b, i - |a|);
        }
      }
    }
  }

  /** The test `handleDrop` applies: the chain is empty, or its last output type is the program's input type. */
  predicate CanFollow(chain: seq<Program>, p: Program) {
    chain == [] || chain[|chain| - 1].outputType == p.inputType
  }

  /** `'.' + name.split('.').pop()`. */
  function Extension(name: string): (ext: string)
    ensures |ext| >= 1 && ext[0] == '.' && '.' !in ext[1..]
  {
    "." + LastSegment(name, '.')
  }

  /** A name with a dot ends in its extension. */
  lemma ExtensionOfDotted(stem: string, ext: string)
    requires '.' !in ext
    ensures Extension(stem + "." + ext) == "." + ext
  {
    LastSegmentOfJoin(stem, '.', ext);
  }

  /** A name without a dot counts as its own extension: "README" has extension ".README". */
  lemma ExtensionOfUndotted(name: string)
    requires '.' !in name
    ensures Extension(name) == "." + name
  {
    LastSegmentWithoutSep(name, '.');
  }

  /** The test `handleFileChange` applies to a file for a non-empty chain. */
  predicate Accepts(chain: seq<Program>, file: File)
    requires chain != []
  {
    Extension(file.name) == chain[0].inputType
  }

  /** `selectedPrograms.map(prog => prog.file.split('/').pop())`: the base name of each program's file. */
  function ProgramNames(chain: seq<Program>): (names: seq<string>)
    ensures |names| == |chain|
    ensures forall i :: 0 <= i < |chain| ==>
      '/' !in names[i] && |names[i]| <= |chain[i].file| && names[i] == chain[i].file[|chain[i].file| - |names[i]|..]
  {
    seq(|chain|, i requires 0 <= i < |chain| => LastSegment(chain[i].file, '/'))
  }

  /** A program stored as "<directory>/<name>" is sent as "<name>". */
  lemma ProgramNameOfPath(chain: seq<Program>, i: int, dir: string, name: string)
    requires 0 <= i < |chain| && chain[i].file == dir + "/" + name && '/' !in name
    ensures ProgramNames(chain)[i] == name
  {
    LastSegmentOfJoin(dir, '/', name);
  }

  class PipelinePage {
    var programs: seq<Program>
    var filteredPrograms: seq<Program>
    var selectedPrograms: seq<Program>
    var inputFile: Option<File>
    var fileError: Option<FileError>
    var executionError: Option<string>
    var searchTerm: string
    var fileUrl: Option<string>

    /** The chain is type-correct, and an accepted file matches the chain's first program. */
    ghost predicate Valid()
      reads this`selectedPrograms, this`inputFile
    {
      && Chained(selectedPrograms)
      && (inputFile.Some? ==> selectedPrograms != [] && Accepts(selectedPrograms, inputFile.value))
    }

    constructor ()
      ensures Valid()
      ensures programs == filteredPrograms == selectedPrograms == []
      ensures inputFile == None && fileError == None && executionError == None
      ensures searchTerm == "" && fileUrl == None
    {
      programs, filteredPrograms, selectedPrograms := [], [], [];
      inputFile, fileError, executionError := None, None, None;
      searchTerm, fileUrl := "", None;
    }

    /** `fetchPrograms`: the list is stored unfiltered; a failed call changes nothing. */
    method FetchPrograms(response: Option<seq<Program>>)
      requires Valid()
      modifies this`programs, this`filteredPrograms
      ensures Valid()
      ensures response.Some? ==> programs == filteredPrograms == response.value
      ensures response.None? ==> programs == old(programs) && filteredPrograms == old(filteredPrograms)
    {
      if response.Some? {
        programs, filteredPrograms := response.value, response.value;
      }
    }

    /** `handleDrop`: appends the program when it fits the chain's last output type. */
    method Drop(program: Program)
      requires Valid()
      modifies this`selectedPrograms, this`fileError, this`executionError
      ensures Valid()
      ensures old(selectedPrograms) == [] ==>
        selectedPrograms == [program] && fileError == None && executionError == None
      ensures old(selectedPrograms) != [] && CanFollow(old(selectedPrograms), program) ==>
        selectedPrograms == old(selectedPrograms) + [program] && fileError == None && executionError == None
      ensures !CanFollow(old(selectedPrograms), program) ==>
        selectedPrograms == old(selectedPrograms)
        && fileError == Some(OutputMismatch(program.title))
        && executionError == old(executionError)
    {
      if |selectedPrograms| == 0 {
        selectedPrograms := [program];
        fileError, executionError := None, None;
      } else {
        var last := selectedPrograms[|selectedPrograms| - 1];
        if last.outputType == program.inputType {
          ChainedAppend(selectedPrograms, [program]);
          selectedPrograms := selectedPrograms + [program];
          fileError, executionError := None, None;
        } else {
          fileError := Some(OutputMismatch(program.title));
        }
      }
    }

    /**
     * `handleFileChange`: keeps the file when its extension is the first
     * program's input type. The input is only on screen while the chain is
     * non-empty; with no file picked nothing happens.
     */
    method FileChange(file: Option<File>)
      requires Valid()
      requires file.Some? ==> selectedPrograms != []
      modifies this`inputFile, this`fileError
      ensures Valid()
      ensures file.None? ==> inputFile == old(inputFile) && fileError == old(fileError)
      ensures file.Some? && Accepts(selectedPrograms, file.value) ==>
        inputFile == file && fileError == None
      ensures file.Some? && !Accepts(selectedPrograms, file.value) ==>
        inputFile == old(inputFile) && fileError == Some(InputMismatch(selectedPrograms[0].inputType))
    {
      if file.Some? {
        var program := selectedPrograms[0];
        var fileExtension := Extension(file.value.name);
        if fileExtension == program.inputType {
          inputFile, fileError := file, None;
        } else {
          fileError := Some(InputMismatch(program.inputType));
        }
      }
    }

    /**
     * `handleSubmit`: posts the file and the program names when both are
     * present; `reply` is the backend's answer to that post.
     */
    method Submit(reply: Reply) returns (request: Option<PipelineRequest>)
      requires Valid()
      modifies this`fileUrl, this`executionError, this`fileError
      ensures Valid()
      ensures request.Some? <==> old(inputFile).Some? && selectedPrograms != []
      ensures request.Some? ==>
        request.value == PipelineRequest(inputFile.value, ProgramNames(selectedPrograms))
        && fileError == old(fileError)
        && (reply.Created? ==> fileUrl == Some(reply.fileUrl) && executionError == None)
        && (reply.Failed? ==> fileUrl == old(fileUrl) && executionError == reply.error)
        && (reply.NoResponse? ==> fileUrl == old(fileUrl) && executionError == old(executionError))
      ensures request.None? && inputFile.None? ==>
        fileError == Some(SelectFile) && fileUrl == old(fileUrl) && executionError == old(executionError)
      ensures request.None? && inputFile.Some? ==>
        fileError == old(fileError) && fileUrl == old(fileUrl) && executionError == old(executionError)
    {
      if inputFile.Some? && |selectedPrograms| > 0 {
        request := Some(PipelineRequest(inputFile.value, ProgramNames(selectedPrograms)));
        match reply
        case Created(url) =>
          fileUrl, executionError := Some(url), None;
        case Failed(error) =>
          executionError := error;
        case NoResponse =>
      } else {
        request := None;
        if inputFile.None? {
          fileError := Some(SelectFile);
        }
      }
    }

    /** `handleSearchChange`: stores the lower-cased term and the programs whose title contains it. */
    method SearchChange(value: string)
      requires Valid()
      modifies this`searchTerm, this`filteredPrograms
      ensures Valid()
      ensures searchTerm == Lower(value)
      ensures filteredPrograms == TitleSearch(programs, value)
    {
      var term := Lower(value);
      searchTerm := term;
      TitleSearchLoweredTerm(programs, value);
      filteredPrograms := TitleSearch(programs, term);
    }

    /** `handleReset`: empties the chain and clears the file, the errors and the result link. */
    method Reset()
      requires Valid()
      modifies this`selectedPrograms, this`inputFile, this`fileError, this`fileUrl, this`executionError
      ensures Valid()
      ensures selectedPrograms == [] && inputFile == None && fileError == None
      ensures fileUrl == None && executionError == None
    {
      selectedPrograms := [];
      inputFile, fileError, fileUrl, executionError := None, None, None, None;
    }
  }
}
