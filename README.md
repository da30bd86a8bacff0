# A verified model of the refactoring pipeline in `main.py`

`main.py` is a command-line assistant. It loads a Groq API key from a `.env` file, clones a
GitHub repository, and counts the Python files in it. It then walks the tree again and
sends at most `analysis_limit` Python files through three chat-completion "agents":

1. a quality analyst;
2. a security specialist;
3. a chief refactorer.

When all three succeed, it writes the refactored text to `refactored_<basename>` in an
output directory.

This project models that controller and the pieces it rests on, in Dafny:

- `wrappers.dfy`: the `Option` and `Result` datatypes.
- `pystr.dfy` (module `PyStr`): the Python string and path primitives the program uses.
  - `str.strip` with and without a character set.
  - `split('=', 1)` unpacked into two names.
  - `split('/')[-1]`.
  - `str.replace(pat, '')`.
  - POSIX `os.path.join`.
- `dotenv.dfy` (module `DotEnv`): the `.env` loop and the API-key check at start-up.
  - The loop is a method of the class `Environment`, whose `vars` map is `os.environ`.
  - It is specified by a fold (`Apply`) over the effect of every line (`ParseLine`).
- `repo.dfy` (module `Clone`): the directory name `clone_repo` derives from the URL path.
- `stages.dfy` (module `Stages`): the three agents, as functions of two oracles.
  - `read` is the UTF-8 file read.
  - `service` is the chat-completion request. It distinguishes a request that raises from a
    reply whose content is missing.
- `pipeline.dfy` (module `Pipeline`): the `__main__` controller.
  - The count loop is `CountPyFiles`.
  - The class `Controller` holds the output directory (a map from artifact name to
    content), the counter `files_analyzed_count`, and a ghost trace of every stage call.
  - Its methods are specified by folds over the charged files: `Output` and `Trace`.
  - The charged files are `Charged(walk, limit)`, the first `limit` Python files in walk
    order.

Python truthiness is modelled explicitly. Both a missing value and the empty string stop
the stage chain.

## Model

| member | source | states |
|---|---|---|
| PyStr.SkipFrom | main.py:15-16 | the left scan of `strip`: the first index from `i` on whose character is not dropped, with every character before it dropped |
| PyStr.SkipBack | main.py:15-17 | the right scan of `strip`, stopping at the left end: every character after the result is dropped and the one before it is not |
| PyStr.Strip | main.py:15-17 | `strip` returns a contiguous slice of its input, every character outside it is in the stripped set, and neither end of a non-empty result is |
| PyStr.SplitFirst | main.py:16 | the unpacking of `split('=', 1)` fails exactly when there is no `=`; otherwise the line is key + `=` + rest, and the key holds no `=` |
| PyStr.AfterLast | main.py:32 | `split('/')[-1]` is a suffix of its input without `/`, preceded by `/` whenever it is not the whole input |
| PyStr.RemoveAll | main.py:32 | `replace(pat, '')` never lengthens the string and never adds a character; it is the identity when `pat` does not occur |
| PyStr.OccursInTail | main.py:32 | `pat` occurs at `q` in the tail of a string exactly when it occurs at `q + 1` in the string |
| PyStr.KeepHead | main.py:32 | the scan of `replace` keeps a first character that does not start a match, and continues after it |
| PyStr.DropMatch | main.py:32 | the scan of `replace` deletes a match at the front and resumes right after it |
| PyStr.NoneBeforeOfFirst | main.py:32 | no match starting before `p` means the scan steps over the first `p` characters one at a time |
| PyStr.KeepUnmatched | main.py:32 | a prefix in which the scan finds no match is kept unchanged, and the scan continues on the rest |
| PyStr.RemoveFirst | main.py:32 | `replace(pat, '')` keeps everything before the first occurrence of `pat`, deletes that occurrence, and continues on the rest |
| PyStr.Join | main.py:192 | POSIX `os.path.join(a, b)` is `b` when `b` is absolute; otherwise it is `a` followed by `b`, with one `/` between them exactly when `a` is non-empty and does not already end in `/` |
| PyStr.AfterLastOfName | main.py:203 | the final component of a path that ends in `/name`, or is exactly `name`, is `name` when `name` holds no `/` |
| PyStr.BasenameOfJoin | main.py:203 | the basename of `os.path.join(root, file)` is `file` for every file name without `/` |
| DotEnv.ParseLine | main.py:15-17 | a line is skipped exactly when it is blank after stripping or its raw text starts with `#`; a non-skipped line raises for want of `=` exactly when its stripped text has none; an assignment has a non-empty key without `=`, and neither key nor value holds NUL |
| PyStr.SplitFirstOfParts | main.py:16 | splitting `key=rest` at its first `=` gives back `key` and `rest` whenever `key` holds no `=` |
| DotEnv.KeyValueLineAssigns | main.py:15-17 | a non-comment line whose stripped text is `key=raw`, with a non-empty key without `=` and no NUL in the key or the unquoted value, assigns the unquoted value to that key |
| DotEnv.AssignedKey | main.py:16-17 | the key assigned is the non-empty text of the stripped line before its first `=` |
| DotEnv.AssignedValue | main.py:16-17 | the value assigned is the rest of the stripped line after the first `=`, with quote characters stripped from both ends; no NUL is ever assigned |
| DotEnv.Effects | main.py:14-17 | one effect per line of the file, and the effect at each position is that line's own |
| DotEnv.EffectsPrefix | main.py:14-17 | the effects of the first lines of the file are the first effects of the file |
| DotEnv.Apply | main.py:14-17 | loading succeeds exactly when no line raises; otherwise it stops at the first raising line, with that line's reason |
| DotEnv.FirstRaiseStops | main.py:14-17 | once a line raises, nothing after it matters |
| DotEnv.LastAssignmentWins | main.py:17 | after a successful load, a key holds the value of the last line that assigns it |
| DotEnv.UnassignedKeyKept | main.py:17 | a key that no line assigns keeps its inherited value, or stays absent |
| DotEnv.Environment.constructor | main.py:17-21 | the environment starts as the inherited one |
| DotEnv.Environment.LoadLines | main.py:13-17 | the loop leaves the environment as the fold says; when a line raises, it reports that line and leaves the assignments of the lines before it in place |
| DotEnv.Environment.Startup | main.py:12-24 | a missing file, a raising line and a missing `GROQ_API_KEY` each stop start-up with their own error; otherwise the key's value is returned |
| Clone.RepoName | main.py:32 | the directory name holds no `/` and is no longer than the last URL segment; it is empty when the URL path ends in `/`; it is the last segment itself when that holds no `.git`; otherwise it is the segment's text before its first `.git`, followed by the rest of the segment with every further `.git` deleted |
| Clone.LastSegment | main.py:32 | the last segment of `prefix/seg` is `seg` |
| Clone.NoGitAtFront | main.py:32 | `name.git` does not start with `.git` when `name` is non-empty and holds none |
| Clone.NoGitInTail | main.py:32 | the tail of a non-empty name without `.git` holds no `.git` either |
| Clone.RemoveGitSuffix | main.py:32 | deleting `.git` from `name.git` gives back `name` when `name` holds no `.git` |
| Clone.RepoNameOfCloneUrl | main.py:32 | for a URL path ending in `/name.git` or `/name`, the directory is `name` |
| Clone.KeepFirst | main.py:32 | the scan of `replace('.git', '')` keeps a first character other than `.` |
| Clone.KeepDotFree | main.py:32 | `replace` keeps a leading run without `.` unchanged and continues after it |
| Clone.SkipLeadingGit | main.py:32 | a leading `.git` is deleted and the scan resumes after it |
| Clone.InnerGitRemoved | main.py:32 | every `.git` is deleted, not only a trailing one: `/octo/octo.github.io.git` gives `octohub.io` |
| Stages.QualityAnalyst | main.py:45-80 | an unreadable file, or a raising request, gives `(None, None)`; a readable file whose request returned gives the returned content as report and the file's text as code; code is returned only when it is the file's text and its request returned the report |
| Stages.SecurityAnalyst | main.py:82-110 | a raising request gives `None`; a returned request gives its content, and only a returned request gives a report |
| Stages.ChiefRefactorer | main.py:112-153 | a raising request gives `None`; a request on exactly the code and both reports that returned gives its content, and only such a request gives refactored text |
| Stages.UnreadableFileStops | main.py:50-80 | an unreadable file, or one whose quality request raised, yields no usable report or code |
| Pipeline.PyIn | main.py:172-173 | a directory has no more Python files than names, and each of them is a `.py` name that the directory lists, paired with the directory |
| Pipeline.PyFiles | main.py:171-173 | every file the walk yields as a Python file has a name ending in `.py` |
| Pipeline.Take | main.py:184-190 | the first `min(limit, n)` elements of a sequence |
| Pipeline.Charged | main.py:184-208 | the charged files are a prefix of the walk's Python files, `min(limit, total)` long, and never more than `limit` |
| Pipeline.PyInMembers | main.py:172-173 | a file is a Python file of a directory exactly when the directory lists it and its name ends in `.py` |
| Pipeline.PyFilesMembers | main.py:171-173 | a file is among the walk's Python files exactly when its name ends in `.py` and some directory of the walk lists it |
| Pipeline.PyFilesPrefix | main.py:185-187 | walking fewer directories finds a prefix of the Python files |
| Pipeline.PyInPrefix | main.py:188-190 | listing fewer names finds a prefix of a directory's Python files |
| Pipeline.FirstFileOnly | main.py:179 | with the hard-wired limit of 1, only the first Python file of the walk is charged |
| Pipeline.CountPyFiles | main.py:170-174 | `total_py_files` is the number of Python files of the walk |
| Pipeline.ArtifactNameShape | main.py:203 | an artifact name is `refactored_` followed by the final component of the path: a suffix of the path without `/`, preceded by `/` unless it is the whole path |
| Pipeline.ArtifactOfListedFile | main.py:203 | the artifact of a listed file is `refactored_` followed by the file's own name |
| Pipeline.RunFile | main.py:194-205 | one file's run calls one to three stages, the quality stage first, and writes only after all three, a non-empty text |
| Pipeline.RunFileStages | main.py:194-202 | for one file: quality runs first; security runs only after a non-empty report and non-empty code; refactoring runs only after a non-empty security report, on exactly that code and both reports; a write happens only of non-empty refactored text, verbatim |
| Pipeline.Output | main.py:184-208 | the runs never delete an entry of the output directory |
| Pipeline.Trace | main.py:184-208 | each charged file adds one to three stage calls to the trace |
| Pipeline.OutputIsStore | main.py:203-205 | the output directory is the result of applying those writes in order |
| Pipeline.StoreLastWins | main.py:204-205 | after a sequence of writes, a name holds the last text written under it |
| Pipeline.LastWriteWins | main.py:203-205 | a later file with the same basename overwrites the earlier artifact: each entry holds the last successful write to its name |
| Pipeline.UnwrittenEntryKept | main.py:203-205 | nothing else in the output directory changes |
| Pipeline.AppendRun | main.py:194-202 | appending one file's stage calls keeps the trace well ordered |
| Pipeline.TraceWellOrdered | main.py:184-208 | across the whole run, every security call directly follows its file's quality call, and every refactor call directly follows a security call on the same code |
| Pipeline.QualityPathsOfRun | main.py:194 | each file's run calls the quality stage exactly once, on its own path |
| Pipeline.QualityPathsAppend | main.py:194 | the quality calls of two traces in a row are those of the first followed by those of the second |
| Pipeline.QualityPathsOfOneMore | main.py:192-194 | the last charged file adds its path, once, to the quality calls |
| Pipeline.PathsOfOneMore | main.py:192 | one more charged file adds its own path at the end of the paths |
| Pipeline.EachChargedFileAnalysedOnce | main.py:184-208 | the quality stage is called once for every charged file, in walk order, and for no other file |
| Pipeline.TakeStep | main.py:186-190 | below the limit, one more element found is one more element taken; once the limit is reached, finding more takes nothing more |
| Pipeline.RunOneMore | main.py:192-208 | one more charged file extends the trace by its stage calls and writes its artifact when its run succeeds |
| Pipeline.DirectoryStep | main.py:188-208 | below the limit, a `.py` name is charged next and any other name charges nothing |
| Pipeline.DirectoryStop | main.py:189-190 | once the limit is reached, the rest of a directory charges nothing |
| Pipeline.Controller.constructor | main.py:184 | a controller starts with the given output directory, a zero counter and an empty trace |
| Pipeline.Controller.AnalyzeFile | main.py:192-208 | the counter rises by one whatever happens; the trace grows by the file's stage calls; the output directory gains the artifact exactly when the run succeeds and is otherwise unchanged |
| Pipeline.Controller.ChargeFile | main.py:192-208 | one more file takes the state from the result of the runs of `done` to the result of the runs of `done + [c]` |
| Pipeline.Controller.AnalyzeDirectory | main.py:188-208 | the inner loop charges exactly the next Python files of the directory, up to the limit |
| Pipeline.Controller.AnalyzeWalk | main.py:184-208 | the counter ends at `min(limit, total)`; the output directory and the trace are those of running exactly the charged files in walk order |
| Pipeline.Controller.Run | main.py:162-208 | without a clone nothing changes and no stage is called; with one, the output directory is emptied first, the total is counted, and the limited walk runs from the empty directory |

## Left out

- The Groq client, the prompt wording and the network (main.py:58-73, 88-103, 118-149). Each request is the `service` oracle, applied to an abstract prompt built from the stage's inputs and the model name.
- `git.Repo.clone_from`, `urlparse`, `os.walk`, `os.getcwd`, `shutil.rmtree` and `os.makedirs`. The URL path, the clone's outcome and the walk are inputs. Emptying the output directory is a map assignment.
- Both walks (main.py:171, 185) are taken to list the same tree in the same order, so one `walk` serves both.
- The removal of an existing clone and the final cleanup with the Windows shell command `rd /s /q` (main.py:34-36, 211-212): platform-specific subprocess I/O.
- `argparse` and every `print`.
- Failing writes: the write at main.py:204-205 is not inside a `try`, so a failure would end the whole run. The model treats every write as succeeding.
- `LARGE_REPO_THRESHOLD` (main.py:178): it is never used.
- The analysis limit is a parameter of the controller. main.py:179 fixes it at 1; `Pipeline.AnalysisLimit` and `FirstFileOnly` state that case.
- Opening the `.env` file: the file is given as its lines, or `None` when it does not exist. Other `open` errors, and decoding errors while reading it, are not modelled.
- The process environment follows POSIX rules. An empty name or a NUL character raises. Windows upper-casing of names is not modelled.
- `os.path.join` and `basename` follow POSIX `posixpath`, not `ntpath`.
- Reading a file for the quality stage is the `read` oracle. A file that cannot be opened and one that cannot be decoded both give `None`.
- `refactored_code/refactored_conf.py` is not part of this model: it is an output of the program, not its code.
- PyStr.RemoveAll: its own contract states only that the result is no longer than the input, adds no character, and is the identity without an occurrence. Its value on an input with an occurrence is stated by `PyStr.RemoveFirst`, one occurrence at a time.
- `local_path` (main.py:33) is not modelled: the model starts from the outcome of the clone, so the absolute path of the clone enters only as the `Some` given to `Run`.
- The `read` and `service` oracles are deterministic functions: the same path always reads the same text, and the same prompt and model always get the same reply. The real file system and chat service give no such promise. `Pipeline.OrderedAt` re-applies the oracles to the arguments recorded in the trace, which describes the actual run only under this assumption.
- Pipeline.Writes and Pipeline.Paths are reference sequences, not operations of the program: the writes the runs attempt (each artifact name with its text, if any) and the path of each charged file. `Pipeline.OutputIsStore`, `Pipeline.LastWriteWins` and `Pipeline.EachChargedFileAnalysedOnce` state the properties of main.py:192-205 against them.
- Stages.Truthy, Pipeline.IsPy, PyStr.IsSpace, PyStr.IsQuote and PyStr.EndsWith are definitions without a contract. `Truthy` is Python truthiness of an optional string: `None` and `""` are false (the tests at main.py:196, 199, 202). `IsPy` is `endswith('.py')` (main.py:173, 191), through `EndsWith`, which is `str.endswith`. `IsSpace` is the set `str.strip()` removes (main.py:15-16), and `IsQuote` the two quote characters, double and single, that main.py:17 strips from the value.
- Pipeline.PathOf and Pipeline.ArtifactName carry no contract of their own. Their properties are the lemmas `PyStr.BasenameOfJoin`, `Pipeline.ArtifactNameShape` and `Pipeline.ArtifactOfListedFile`. Stating them on the functions would put them into every proof about the output directory.
