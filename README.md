# A verified model of the LAMMPS parameter-sweep scripts

This project models the sweep engine of `myscripts` in Dafny. The engine prepares and runs batches of LAMMPS
molecular-dynamics simulations, and the model covers these parts:

- **Parameter combinations** (`ParamCombos`, `combos.dfy`). This is `make_param_combos`. It takes the Cartesian
  product of the *free* parameters (`index_by == -1`) in lexicographic order. Each *pegged* parameter takes its own
  candidate at the position where its referenced parameter's value sits. The table is filled cell by cell into a
  grid (`FillGrid`) and is specified by the function `Combinations`.
- **In-file variable table** (`InFiles`, `infile.dfy`). The class `InFile` parses the lines
  `variable <name> <style> <number>` of a LAMMPS input script into a name → value map and a name → line map.
  `EditVariables` rewrites exactly those lines as `variable <name> equal <value>`.
- **Jobs** (`Jobs`, `jobs.dfy`). `LammpsJob` makes the job folder and the folders `seed0 … seed{n-1}`. It copies,
  renames and edits the project's in-file into every seed folder, giving each seed variable a fresh random value.
  Its `Run` builds the LAMMPS command line.
- **Projects** (`Projects`, `projects.dfy`). `LocalProject` creates the project folder and copies the in-file. It
  keeps the registry of jobs (duplicate names are ignored), flattens the jobs into (job, seed) units, and runs them:
  one at a time, or under `mpirun` in batches.
- **Batching** (`Batching`, `batching.dfy`). `max_parallel = ncores // np` and the cutting of a list into
  consecutive chunks of that size.
- **The sweep script** (`ParamSweep`, `paramsweep.dfy`). `setup` makes a project and the jobs of a combination
  table. `run` runs the named jobs batch after batch.
- **Text-table parsers** (`FixPrint`, `LogFiles`, `Tables`). These read the column files written by `fix ave/time`
  and the thermo table of a LAMMPS log into a heading → column map.

Supporting modules:

- `Results`: `Option`, `Result` and `Outcome`.
- `Seqs`: `ToMap`, `Concat`, `Map`, and Python indexing and slicing.
- `Text`: `strip`, `split`, `join` and integer rendering.
- `FileSystems`: the operating system's file tree. Paths are sequences of names. The state is a set of directories
  and a map from file path to lines, with `mkdir`, `makedirs`, `copy2`, `rename`, and reading and writing lines.

The surroundings are parameters of the model:

- The external process (`os.system`) is an oracle `exec: string -> int` returning the exit status.
- The random draws of `np.random.randint(1000, 1000000)` are passed in as `draws`, each constrained to
  `[1000, 1000000)` (`Jobs.Draws`).
- The pandas table read by `setup` is passed in as its column labels and its rows.

## Model

| member | source | states |
|---|---|---|
| ParamCombos.Product | myscripts/scripts/make_param_combos.py:75-76 | the product has exactly `n_combos` combinations, the product of the lengths of the free lists |
| ParamCombos.ProductOfNothing | myscripts/scripts/make_param_combos.py:75-76 | with no free parameter there is exactly one (empty) combination, so the table has one row |
| ParamCombos.ProductMemberSound | myscripts/scripts/make_param_combos.py:75 | every combination picks one candidate from every free list, in list order |
| ParamCombos.ProductMemberComplete | myscripts/scripts/make_param_combos.py:75 | every pick of one candidate per list is a combination: nothing is omitted |
| ParamCombos.ProductMembers | myscripts/scripts/make_param_combos.py:75 | a sequence is a combination if and only if it picks one candidate from each list |
| ParamCombos.ProductDistinct | myscripts/scripts/make_param_combos.py:75 | lists without repeated candidates give combinations without duplicates |
| ParamCombos.ProductIndex | myscripts/scripts/make_param_combos.py:75 | combination `i` is candidate `i div m` of the first list followed by combination `i mod m` of the rest: the first list varies slowest |
| ParamCombos.Positions | myscripts/scripts/make_param_combos.py:75 | the positions combination `i` picks: one valid position per list |
| ParamCombos.ProductAt | myscripts/scripts/make_param_combos.py:75 | combination `i` holds, for every list, the candidate at its position |
| ParamCombos.ProductLexicographic | myscripts/scripts/make_param_combos.py:75-79 | combinations come in strictly increasing lexicographic order of their positions, the last list varying fastest |
| ParamCombos.ProductLengths | myscripts/scripts/make_param_combos.py:75 | every combination has one entry per free list |
| ParamCombos.FreeIndices | myscripts/scripts/make_param_combos.py:75 | the selected parameters are in range and all have `index_by == -1` |
| ParamCombos.FreeIndicesIncreasing | myscripts/scripts/make_param_combos.py:75 | the free parameters are selected in their original order |
| ParamCombos.FreePosAt | myscripts/scripts/make_param_combos.py:81-82 | a free parameter is found at its free position in the combination |
| ParamCombos.FreeLists | myscripts/scripts/make_param_combos.py:75 | `param_values[index_by == -1]`: one candidate list per free parameter |
| ParamCombos.IndexOf | myscripts/scripts/make_param_combos.py:85 | `np.where(...)[0][0]`: the first position holding the value, or none exactly when the value is absent |
| ParamCombos.ArgumentsError | myscripts/scripts/make_param_combos.py:63-65 | no error exactly when the lengths agree, nothing pegs to itself and every peg names a free parameter; the length checks come first |
| ParamCombos.RowCells | myscripts/scripts/make_param_combos.py:80-86 | a completed row has one cell per parameter |
| ParamCombos.TableRows | myscripts/scripts/make_param_combos.py:79-86 | a completed table has one full-width row per combination |
| ParamCombos.Columns | myscripts/scripts/make_param_combos.py:77 | one column per parameter, each `n_combos` long |
| ParamCombos.RowCellsSpec | myscripts/scripts/make_param_combos.py:80-86 | a row succeeds exactly when each of its cells does, and then holds those cells |
| ParamCombos.TableRowsSpec | myscripts/scripts/make_param_combos.py:79-86 | the table succeeds exactly when each row does, and then holds those rows |
| ParamCombos.TableRowsOk | myscripts/scripts/make_param_combos.py:79-86 | the table succeeds if and only if every row does |
| ParamCombos.TableRowsValues | myscripts/scripts/make_param_combos.py:79-86 | row `i` of a completed table is the row computed for combination `i` |
| ParamCombos.TableCells | myscripts/scripts/make_param_combos.py:79-86 | cell (`i`, `j`) is the value of parameter `j` for combination `i`; the table fails exactly when some cell does |
| ParamCombos.TableFromCells | myscripts/scripts/make_param_combos.py:79-86 | a table whose every cell succeeds is exactly the table of those cells |
| ParamCombos.RowFromCells | myscripts/scripts/make_param_combos.py:80-86 | a row whose every cell succeeds is exactly the row of those cells |
| ParamCombos.PeggedLookupFound | myscripts/scripts/make_param_combos.py:84-85 | the referenced value of a combination always occurs in the referenced list |
| ParamCombos.RowFits | myscripts/scripts/make_param_combos.py:80-86 | a row succeeds if and only if its pegged lookups find a candidate |
| ParamCombos.TableFits | myscripts/scripts/make_param_combos.py:79-86 | the table succeeds if and only if every combination's pegged lookups find a candidate |
| ParamCombos.CombinationsSucceed | myscripts/scripts/make_param_combos.py:63-86 | `main` succeeds if and only if the argument checks pass and every pegged lookup finds a candidate |
| ParamCombos.NeverValueNotFound | myscripts/scripts/make_param_combos.py:85 | the empty-match failure of `[0][0]` cannot happen: the referenced value was taken from the referenced list |
| ParamCombos.TableNeverValueNotFound | myscripts/scripts/make_param_combos.py:85 | the same for the table built from the product |
| ParamCombos.TableRowsFirstError | myscripts/scripts/make_param_combos.py:79-86 | a failing table reports the error of one of its cells |
| ParamCombos.RowCellsFirstError | myscripts/scripts/make_param_combos.py:80-86 | a failing row reports the error of one of its cells |
| ParamCombos.RowCellsErrorPersists | myscripts/scripts/make_param_combos.py:80-86 | the first failing cell stops the row: later cells do not change the outcome |
| ParamCombos.TableRowsErrorPersists | myscripts/scripts/make_param_combos.py:79-86 | the first failing row stops the table |
| ParamCombos.CombinationsShape | myscripts/scripts/make_param_combos.py:76-77 | the keys are the parameter names, and every column has `n_combos` entries |
| ParamCombos.TableCell | myscripts/scripts/make_param_combos.py:79-86 | with distinct names, column `j` at row `i` holds the cell of parameter `j` for combination `i` |
| ParamCombos.FreeColumn | myscripts/scripts/make_param_combos.py:81-82 | a free parameter's entry in row `i` is its value in combination `i` |
| ParamCombos.PeggedColumn | myscripts/scripts/make_param_combos.py:83-86 | a pegged parameter's entry in row `i` is its candidate `k`, where `k` is the first position of the referenced parameter's row-`i` value |
| ParamCombos.CombinationsFromRows | myscripts/scripts/make_param_combos.py:77-86 | when every row is computed, `main` gives the columns of those rows keyed by name |
| ParamCombos.FillRow | myscripts/scripts/make_param_combos.py:80-86 | the inner loop writes row `i` of the grid as the specified row, or stops with its first error, and leaves every other row untouched |
| ParamCombos.FillGrid | myscripts/scripts/make_param_combos.py:77-86 | the nested loops fill the grid with exactly the specified table, or stop with its first error |
| ParamCombos.GridColumns | myscripts/scripts/make_param_combos.py:77 | column `b` holds entry `b` of every grid row |
| ParamCombos.ColumnsOfGrid | myscripts/scripts/make_param_combos.py:77 | the columns read off the grid are the columns of the table |
| ParamCombos.GenerateTable | myscripts/scripts/make_param_combos.py:60-86 | `main` (checks, product, grid fill, columns) computes exactly `Combinations` |
| ParamCombos.AsWrittenMisindexes | myscripts/scripts/make_param_combos.py:82-85 | with `index_by = [-1, 0, -1]`, `combo[j]` as written reads past the combination, where the intended cell is 7.0 |
| ParamCombos.NotFreeFirst | myscripts/scripts/make_param_combos.py:82 | unless the free parameters come first, some free parameter's global index is past the combination's length |
| ParamCombos.AsWrittenFailsUnlessFreeFirst | myscripts/scripts/make_param_combos.py:82-85 | as written, every row fails unless the free parameters come first |
| ParamCombos.FreePosFirst | myscripts/scripts/make_param_combos.py:82 | when free parameters come first, a free parameter's free position is its global index |
| ParamCombos.AsWrittenAgreesWhenFreeFirst | myscripts/scripts/make_param_combos.py:82-85 | when free parameters come first, the code as written computes the intended cell |
| ParamCombos.DocumentedCell | myscripts/scripts/make_param_combos.py:43-57 | each of the 18 cells of the documented example has the documented value |
| ParamCombos.DocumentedRows | myscripts/scripts/make_param_combos.py:51-57 | the documented example's table is the six documented rows |
| ParamCombos.DocumentedTable | myscripts/scripts/make_param_combos.py:43-57 | the documented example gives the columns of those six rows |
| ParamCombos.DocumentedColumns | myscripts/scripts/make_param_combos.py:51-57 | the columns of the six rows, written out |
| ParamCombos.DocumentedExample | myscripts/scripts/make_param_combos.py:43-57 | `Temp`, `Interval`, `Lattice_const` with `index_by [-1, -1, 0]` give exactly the documented six rows, the lattice constant pegged to the temperature |
| InFiles.Kinds | myscripts/src/FileIO/InFile.py:42-45 | one classification per line of the file |
| InFiles.ParseErrorPersists | myscripts/src/FileIO/InFile.py:42-44 | once a line has raised, no later line changes the outcome |
| InFiles.ParseKindsFails | myscripts/src/FileIO/InFile.py:43-44 | parsing fails if and only if some `variable` line has fewer than four fields; the error names the first such line |
| InFiles.ParseKindsRecordsLast | myscripts/src/FileIO/InFile.py:42-47 | a name is recorded if and only if some line declares it with a free value; the last such line's value and 0-based index win |
| InFiles.ParsedTableWellFormed | myscripts/src/FileIO/InFile.py:46-47 | both maps have the same names, recorded lines are distinct and inside the file |
| InFiles.EditedLines | myscripts/src/FileIO/InFile.py:73-85 | the line count is kept, each targeted recorded line becomes `variable {name} equal {value}`, and every other line is unchanged |
| InFiles.EditIgnoresUnknownNames | myscripts/src/FileIO/InFile.py:76-82 | names outside the table change nothing in the file |
| InFiles.EditIdempotent | myscripts/src/FileIO/InFile.py:73-85 | applying the same changes twice gives the same lines as applying them once |
| InFiles.EditOneMore | myscripts/src/FileIO/InFile.py:76-78 | one more known name rewrites exactly its recorded line |
| InFiles.EditUnknownName | myscripts/src/FileIO/InFile.py:79-82 | one more unknown name rewrites nothing |
| InFiles.FreeValueIsWord | myscripts/src/FileIO/InFile.py:45 | a free value contains no whitespace |
| InFiles.ClassifiedNameIsWord | myscripts/src/FileIO/InFile.py:44 | a recorded name is a single whitespace-free token |
| InFiles.DeclarationLineStrip | myscripts/src/FileIO/InFile.py:78 | the rewritten line, stripped, is its four fields joined by single spaces |
| InFiles.ClassifyDeclarationLine | myscripts/src/FileIO/InFile.py:78 | the rewritten line parses back as the declaration of the new value |
| InFiles.ParsedNamesAreWords | myscripts/src/FileIO/InFile.py:44-47 | every recorded name is a single token |
| InFiles.ReparseEditedKinds | myscripts/src/FileIO/InFile.py:42-78 | re-parsing the edited classification gives the table with the changed values replaced and the same line numbers |
| InFiles.KindsOfEdited | myscripts/src/FileIO/InFile.py:75-78 | the parser's view of the rewritten lines is the rewritten view |
| InFiles.EditThenParse | myscripts/src/FileIO/InFile.py:31-85 | editing a file and parsing it again gives the new values at the same lines |
| InFiles.InFile.constructor | myscripts/src/FileIO/InFile.py:9-26 | path and basename set, both tables empty |
| InFiles.InFile.ParseVariables | myscripts/src/FileIO/InFile.py:31-47 | an unreadable path fails; otherwise the tables become the parse of the file's lines, or the parse error is returned |
| InFiles.InFile.EditVariables | myscripts/src/FileIO/InFile.py:63-85 | reports the unknown names; the file becomes the edited lines and nothing else changes; an unreadable file or a recorded line past the end leaves it unchanged |
| InFiles.Open | myscripts/src/FileIO/InFile.py:9-27 | `InFile(path)` succeeds exactly when the file exists and parses, holding that parse; otherwise the I/O or parse error |
| Tables.Column | myscripts/src/FileIO/ParsingStrategies/FixPrintParser.py:36-37 | `data[:, i]` has one entry per row |
| Tables.ColumnDict | myscripts/src/FileIO/ParsingStrategies/FixPrintParser.py:36-37 | the dictionary exists exactly when the rows are rectangular and wide enough for every heading, and its keys are the headings |
| Tables.ColumnDictFull | myscripts/src/FileIO/LogFile.py:35-36 | rows with one cell per heading always make a dictionary, unless there are headings but no rows |
| Tables.ColumnDictCells | myscripts/src/FileIO/LogFile.py:36 | each heading maps to the column at its last position, one entry per row |
| Tables.ColumnDictDistinct | myscripts/src/FileIO/LogFile.py:36 | with distinct headings, heading `i` maps to column `i` |
| FixPrint.DataFlags | myscripts/src/FileIO/ParsingStrategies/FixPrintParser.py:25 | one data/comment flag per line |
| FixPrint.FirstTrue | myscripts/src/FileIO/ParsingStrategies/FixPrintParser.py:22-28 | a position in the list or -1 |
| FixPrint.FirstTrueSpec | myscripts/src/FileIO/ParsingStrategies/FixPrintParser.py:22-28 | -1 exactly when nothing is flagged, otherwise the first flagged position |
| FixPrint.SplitRows | myscripts/src/FileIO/ParsingStrategies/FixPrintParser.py:30 | one row per data line |
| FixPrint.Parse | myscripts/src/FileIO/ParsingStrategies/FixPrintParser.py:19-39 | the loop and the dictionary build compute exactly `Table` |
| FixPrint.ScanLines | myscripts/src/FileIO/ParsingStrategies/FixPrintParser.py:22-31 | the loop finds the first data line and splits the data lines in file order, or fails on an empty separator exactly when there is a data line |
| FixPrint.TableEmptySeparator | myscripts/src/FileIO/ParsingStrategies/FixPrintParser.py:30 | `split("")` on any data line raises |
| FixPrint.DataLinesAppend | myscripts/src/FileIO/ParsingStrategies/FixPrintParser.py:24-31 | the data lines of two pieces of a file are those of each, in order |
| FixPrint.DataLinesMembers | myscripts/src/FileIO/ParsingStrategies/FixPrintParser.py:24-31 | the rows come from exactly the lines that are not comments |
| FixPrint.DataLinesFirst | myscripts/src/FileIO/ParsingStrategies/FixPrintParser.py:27-31 | the first row comes from the first data line |
| FixPrint.FirstDataLineSpec | myscripts/src/FileIO/ParsingStrategies/FixPrintParser.py:27-28 | `first_data_line` is -1 exactly when every line is a comment, otherwise the first non-comment line |
| FixPrint.HeadingLineIndex | myscripts/src/FileIO/ParsingStrategies/FixPrintParser.py:32-33 | headings come from the line before the first data line; index -1 wraps to the last line, -2 to the second-to-last |
| FixPrint.HeadingLineRead | myscripts/src/FileIO/ParsingStrategies/FixPrintParser.py:33 | a `#` heading line is a comment and reads back as its names |
| FixPrint.HeadedData | myscripts/src/FileIO/ParsingStrategies/FixPrintParser.py:24-28 | after one comment line, all following data lines are the data and the first data line is 1 |
| FixPrint.HeadedRoundTrip | myscripts/src/FileIO/ParsingStrategies/FixPrintParser.py:19-37 | a comment heading line followed by data lines parses to the column dictionary of its headings and rows |
| FixPrint.ColumnFileRoundTrip | myscripts/src/FileIO/ParsingStrategies/FixPrintParser.py:11-37 | a `#` heading line followed by whitespace-separated rows parses back to exactly those columns |
| LogFiles.MarkerFlags | myscripts/src/FileIO/LogFile.py:21-23 | one marker flag per line |
| LogFiles.LastTrue | myscripts/src/FileIO/LogFile.py:17-24 | a position in the list or -1 |
| LogFiles.LastTrueSpec | myscripts/src/FileIO/LogFile.py:17-24 | -1 exactly when no line is a marker, otherwise the last marker line: later markers overwrite earlier ones |
| LogFiles.LastTrueStep | myscripts/src/FileIO/LogFile.py:20-24 | each marker line seen replaces the recorded one |
| LogFiles.ScanMarkers | myscripts/src/FileIO/LogFile.py:17-24 | the loop leaves `start_line` one past the last `Per MPI rank` line and `end_line` one before the last `Loop time` line (-1 if missing) |
| LogFiles.ParseBlock | myscripts/src/FileIO/LogFile.py:17-36 | the body computes the table of the slice between the markers |
| LogFiles.ParseThermoTable | myscripts/src/FileIO/LogFile.py:15-37 | `parse_thermo_table` computes exactly `ThermoTable` |
| LogFiles.SliceBetween | myscripts/src/FileIO/LogFile.py:25 | the Python slice `lines[p+1 : q]`, with -1 for a missing line, is the lines strictly between, or nothing |
| LogFiles.BlockBetween | myscripts/src/FileIO/LogFile.py:20-25 | the block is the lines strictly between the last start and last end marker, or empty when the end does not follow the start |
| LogFiles.EmptyBlockCases | myscripts/src/FileIO/LogFile.py:25-29 | reading `data[0]` fails exactly when no line lies between the two markers |
| LogFiles.BlockTableCells | myscripts/src/FileIO/LogFile.py:29-36 | each heading of the first block line names a column with one entry per later block line, in order |
| LogFiles.BlockTableOf | myscripts/src/FileIO/LogFile.py:29-36 | a block of a heading line and rows gives the column dictionary of those headings and rows |
| LogFiles.MarkerLast | myscripts/src/FileIO/LogFile.py:20-24 | a marker line with no marker after it is the one recorded |
| LogFiles.FramedStart | myscripts/src/FileIO/LogFile.py:20-22 | in a framed log the start marker line is the one recorded |
| LogFiles.FramedEnd | myscripts/src/FileIO/LogFile.py:23-24 | in a framed log the end marker line is the one recorded |
| LogFiles.FramedBlock | myscripts/src/FileIO/LogFile.py:20-25 | in a framed log the block is exactly the table lines |
| LogFiles.FramedTable | myscripts/src/FileIO/LogFile.py:20-36 | a framed log gives the column dictionary of its table |
| LogFiles.ThermoLinesRead | myscripts/src/FileIO/LogFile.py:29-32 | the heading line and rows split back into the headings and rows |
| LogFiles.ThermoRoundTrip | myscripts/src/FileIO/LogFile.py:15-37 | a log with the two markers around a heading line and rows returns exactly those columns |
| Jobs.SeedPath | myscripts/src/LAMMPS_Job.py:52 | seed folder `i` is `seed{i}` directly under the job folder |
| Jobs.InFileName | myscripts/src/LAMMPS_Job.py:65-66 | the in-file name extends the project in-file's basename (`{basename}_{name}`) |
| Jobs.SeedInFile | myscripts/src/LAMMPS_Job.py:70-71 | the in-file of seed `i` is `{outpath}/seed{i}/{in_file_name}` |
| Jobs.CommandWords | myscripts/src/LAMMPS_Job.py:109-112 | the shell receives the command's words, then `-in`, the in-file path, `-screen`, `none` |
| Jobs.SeedDirsMember | myscripts/src/LAMMPS_Job.py:51-52 | the seed folders are exactly `seed0 … seed{n-1}` |
| Jobs.SeedDirsCount | myscripts/src/LAMMPS_Job.py:51-52 | there are exactly `n_seeds` seed folders |
| Jobs.SeedTreeBelow | myscripts/src/LAMMPS_Job.py:51-52 | below the job folder, the folders `makedirs` adds are exactly the seed folders |
| Jobs.CreateSeedDirs | myscripts/src/LAMMPS_Job.py:49-52 | `makedirs` of every seed folder adds exactly the seed folders and their parents, or fails on a file in the way and adds nothing |
| Jobs.FirstMissing | myscripts/src/LAMMPS_Job.py:88-92 | the first seed variable that is not a job variable |
| Jobs.SeedCheck | myscripts/src/LAMMPS_Job.py:83-92 | raises exactly when there are variables and some seed variable is not among them |
| Jobs.SeedEditsLine | myscripts/src/LAMMPS_Job.py:88-90 | each seed variable's recorded line carries its drawn value; a repeated seed variable keeps its last draw |
| Jobs.SeedEditsKeep | myscripts/src/LAMMPS_Job.py:88-90 | no other line changes |
| Jobs.EditSeedVariables | myscripts/src/LAMMPS_Job.py:88-92 | the seed variables before the first missing one get their draws written, then it raises naming that one |
| Jobs.PlaceInFile | myscripts/src/LAMMPS_Job.py:76-79 | copy then rename: the seed folder gets the in-file under the job's name, or the first failing step's error and its partial effect |
| Jobs.PrepareInFile | myscripts/src/LAMMPS_Job.py:81-92 | the copy is parsed; with variables it is edited to them and to the seed draws; without variables it is left as copied |
| Jobs.CreateSeedInFile | myscripts/src/LAMMPS_Job.py:69-92 | a seed folder that already holds the job's in-file is left untouched; otherwise copy, rename, parse and edit, with each step's failure |
| Jobs.JobFilesAt | myscripts/src/LAMMPS_Job.py:69-92 | each seed's in-file holds that seed's edited contents |
| Jobs.JobFilesElsewhere | myscripts/src/LAMMPS_Job.py:69-92 | no file other than the seeds' in-files changes |
| Jobs.CreateInFiles | myscripts/src/LAMMPS_Job.py:59-92 | every seed folder gets the edited in-file and nothing else changes, or the error of the first seed, with nothing changed outside the job folder |
| Jobs.LammpsJob.constructor | myscripts/src/LAMMPS_Job.py:11-38 | the job holds its arguments, `outpath = parent.outpath/name` and the in-file name |
| Jobs.LammpsJob.Run | myscripts/src/LAMMPS_Job.py:96-114 | runs `{cmd} -in {outpath}/seed{k}/{in_file_name} -screen none` and returns the exit status unchanged |
| Jobs.Create | myscripts/src/LAMMPS_Job.py:11-92 | raises `FolderExists` and leaves the file system unchanged when the job folder exists; otherwise creates exactly the seed folders (with any missing folder above them) and the seeds' in-files (`CreateEffect`); when it raises later, no file outside the job folder changes and the only folders added are seed folders and their missing ancestors |
| Projects.JobVariables | myscripts/src/LAMMPS_Project.py:105-111 | the project's free variables with `changed_vars` overriding existing keys and adding new ones; the other defaults are kept |
| Projects.SeedUnits | myscripts/src/LAMMPS_Project.py:134-135 | one unit per seed of the job, in ascending seed order |
| Projects.SeedUnitsMember | myscripts/src/LAMMPS_Project.py:134-135 | a unit belongs to a job if and only if it names that job and a seed below `n_seeds` |
| Projects.AllUnitsCount | myscripts/src/LAMMPS_Project.py:130-137 | the number of units is the sum of the jobs' `n_seeds` |
| Projects.AllUnitsAt | myscripts/src/LAMMPS_Project.py:130-137 | seed `s` of the `i`-th job is at the position after all seeds of earlier jobs plus `s`: job insertion order, then seed order |
| Projects.AllUnitsMember | myscripts/src/LAMMPS_Project.py:130-137 | the units are exactly the (job, seed) pairs of registered jobs |
| Projects.LocalProject.constructor | myscripts/src/LAMMPS_Project.py:26-46 | fields set, `outpath = basepath/name`, no job |
| Projects.LocalProject.GetAllJobs | myscripts/src/LAMMPS_Project.py:130-137 | the nested loops flatten the jobs into exactly `AllUnits` |
| Projects.LocalProject.RunSingleJobSeed | myscripts/src/LAMMPS_Project.py:159-164 | runs the unit's seed of its job and returns the status unchanged |
| Projects.LocalProject.RunAllJobsMpi | myscripts/src/LAMMPS_Project.py:139-157 | `ncores // 0` and a zero batch size raise; otherwise every unit runs once, in order, under `mpirun -np {np}`, whatever the other statuses; a negative batch size runs nothing |
| Projects.LocalProject.RunBatches | myscripts/src/LAMMPS_Project.py:151-156 | the batches in order give the statuses of their concatenation |
| Projects.LocalProject.RunBatch | myscripts/src/LAMMPS_Project.py:156 | one status per unit of the batch, in order |
| Projects.LocalProject.RunJobSerial | myscripts/src/LAMMPS_Project.py:167-177 | raises when only making plots, raises `KeyError` for an unknown job, otherwise runs every seed in ascending order whatever the statuses |
| Projects.LocalProject.NewJob | myscripts/src/LAMMPS_Project.py:81-114 | the stripped name: a known name changes nothing; otherwise the job is made with the merged variables and is the one new registry entry, or its error is returned and the registry is unchanged; the file system changes as the job constructor's `CreateEffect` says, and not at all for a known name; the project's table is unchanged |
| Projects.LocalProject.Register | myscripts/src/LAMMPS_Project.py:114 | the registry gains exactly the new name, appended to the insertion order |
| Projects.MakeJob | myscripts/src/LAMMPS_Project.py:114 | the job constructor seen from the project: its error exactly as `CreateCheck` says, or a fresh job holding its arguments; the file system changes as `CreateEffect` says |
| Projects.CreateProject | myscripts/src/LAMMPS_Project.py:19-46 | fails when `basepath` is missing or `basepath/name` exists; on success the in-file path becomes `outpath/basename(infile)` and the table is the parse of that copy; with `only_make_plots` the file system is untouched |
| Projects.InitFileStructure | myscripts/src/LAMMPS_Project.py:50-65 | makes `basepath/name` and copies the in-file into it, returning the copy's path; each failure with exactly its partial effect |
| Batching.FloorDiv | myscripts/src/LAMMPS_Project.py:143 | Python's floor quotient: `b*q <= a < b*q + b` for positive `b` |
| Batching.MaxParallel | myscripts/src/LAMMPS_Project.py:143 | fails exactly for zero domains; otherwise the floor quotient of `ncores` by `np` |
| Batching.MpiCommandWords | myscripts/src/LAMMPS_Project.py:144 | the shell receives `mpirun`, `-np`, the count, then the LAMMPS command's words |
| Batching.ChunksCount | myscripts/scripts/lammps_param_sweep.py:25-26 | there are `ceil(n / size)` chunks |
| Batching.ChunkAt | myscripts/scripts/lammps_param_sweep.py:25 | chunk `k` is the slice `[k*size : k*size + size]` |
| Batching.ChunksIndexed | myscripts/src/LAMMPS_Project.py:152 | the chunks are exactly the list comprehension over `range(0, len, size)` |
| Batching.ChunksConcat | myscripts/scripts/lammps_param_sweep.py:25 | the chunks concatenate back to the list |
| Batching.ChunksSizes | myscripts/src/LAMMPS_Project.py:152 | every chunk is non-empty and at most `size`, and all but the last are exactly `size` |
| Batching.Batches | myscripts/src/LAMMPS_Project.py:148-156 | fails exactly for batch size zero |
| Batching.BatchesCover | myscripts/scripts/lammps_param_sweep.py:22-29 | a list that fits is one batch; otherwise the batches concatenate to the list and none exceeds the size; a negative size gives no batch |
| ParamSweep.Labels | myscripts/scripts/lammps_param_sweep.py:48-49 | label `i` is column `i` followed by `i` |
| ParamSweep.ColumnsNameLabels | myscripts/scripts/lammps_param_sweep.py:47-49 | the job name is the concatenation of the labels: it depends on the column list alone, not on row values |
| ParamSweep.JobName | myscripts/scripts/lammps_param_sweep.py:47-49 | the `job_name +=` loop builds that name |
| ParamSweep.Setup | myscripts/scripts/lammps_param_sweep.py:32-55 | fails with the project's error exactly when `ProjectCheck` fails, leaving the file system as the project's folder steps left it; otherwise, with rows, succeeds exactly when the first row's job passes `CreateCheck` on the file system the project left (its error otherwise), and ends with that job's `CreateEffect`; without rows the project's file system is final; on success the project has the given name and base folder, `outpath = basepath/name`, the in-file copy inside it and the source in-file's free variables; one name per row, all equal to the column name; the first row's job holds those variables overridden by that row |
| ParamSweep.AddRows | myscripts/scripts/lammps_param_sweep.py:44-53 | the row loop appends one name per row in order; the first row's `new_job` succeeds exactly when its `CreateCheck` passes, registers the only job and changes the file system as `CreateEffect` says; later rows find the name present and change nothing; without rows nothing changes |
| ParamSweep.AddRow | myscripts/scripts/lammps_param_sweep.py:47-53 | one pass of the row loop: the name is the column name; `new_job` with the row's values leaves everything unchanged for a present name, and otherwise registers the job exactly when `CreateCheck` passes (its error otherwise, registry unchanged), changing the file system as `CreateEffect` says |
| ParamSweep.RunNamesAppend | myscripts/scripts/lammps_param_sweep.py:27-29 | running one more name extends the statuses or stops with its error |
| ParamSweep.RunNamesStopped | myscripts/scripts/lammps_param_sweep.py:27-29 | after a failure no later name is run |
| ParamSweep.RunNamesOk | myscripts/scripts/lammps_param_sweep.py:27-29 | with every name known, every job runs, each seed in ascending order |
| ParamSweep.RunNamesUnknown | myscripts/src/LAMMPS_Project.py:176-177 | the first unknown name stops the run with `KeyError` naming it |
| ParamSweep.RunNamesPlotsOnly | myscripts/src/LAMMPS_Project.py:168-169 | a plots-only project refuses the first name |
| ParamSweep.Run | myscripts/scripts/lammps_param_sweep.py:18-30 | `ncores // 0` and a zero batch size raise; otherwise the names run in order, batch after batch, under `mpirun -np {np}`; a negative batch size runs nothing |
| ParamSweep.RunBatches | myscripts/scripts/lammps_param_sweep.py:24-29 | batches in index order equal running their concatenation |
| ParamSweep.RunBatch | myscripts/scripts/lammps_param_sweep.py:29 | one batch, name after name, continues the run |

## Left out

- Concurrency: joblib `Parallel` is not modelled. Each batch runs its units one after another, and a batch finishes
  before the next one starts.
- Process execution: `os.system` is the oracle `exec`, and the model stops at the command line it is given.
  `os.chdir` (LAMMPS_Job.py:108) and the working directory are not modelled.
- Randomness: `np.random.randint` values are parameters (`draws`), constrained to `[1000, 1000000)`.
- Numbers: `float(...)` is not modelled. Parsed values and table cells are kept as strings, and combination values
  are reals.
- Output and plumbing: printing, rich markup, timing, typer, `ast.literal_eval` (`process`), and pandas CSV reading
  and writing (make_param_combos.py:88-89) are left out.
- `PermissionError`: the file-system model has no permissions, so the `PermissionError` branches
  (LAMMPS_Project.py:63, LAMMPS_Job.py:53-54) never occur. `shutil.SameFileError` is not modelled either.
- LAMMPS_Project.py:8 imports `Job` from `LAMMPS_Job`, which defines only `LAMMPS_Job`, so loading the module raises
  `ImportError`; `new_job` (line 114) and `get_all_jobs` (line 135) call `Job(...)`. The model uses the job
  constructor (`Jobs.Create`) in their place.
- `get_all_jobs` calls the job constructor with 7 arguments, and a real call would recreate folders. The model
  flattens into (job, seed) pairs (`Projects.JobSeed`), as the comment on line 131 intends.
- `run` calls `project.run_job`, which does not exist. The model uses `run_job_serial` (`RunJobSerial`).
- The sweep's `main` calls `setup` with 5 of its 6 arguments. The model takes every argument.
- `setup` calls the module `LAMMPS_Project(...)` (lammps_param_sweep.py:41) rather than its class. The model calls
  `CreateProject` with `only_make_plots = False`.
- `for _, combo in combos` iterates a DataFrame's column labels. The model iterates the rows.
- `make_param_combos` reads `len(index_by)` before replacing `None`. The model applies the `None` default (all free)
  first.
- `make_param_combos` has no check that a peg names a free parameter. The model rejects such a peg (`BadPeg`);
  `Cell` is defined for valid pegs only.
- ParamCombos.Cell indexes the combination by free position, as intended, not by global index (see Findings).
- `run_single_job_seed` also prints "completed successfully" after a failure. Only the status is modelled.
- Projects.LocalProject.RunAllJobsMpi, Projects.LocalProject.RunSingleJobSeed, Projects.LocalProject.RunJobSerial,
  Projects.LocalProject.RunBatches, Projects.LocalProject.RunBatch, ParamSweep.Run, ParamSweep.RunBatches and
  ParamSweep.RunBatch return the exit statuses, although the source returns `None` (the statuses are discarded).
  This makes each oracle call, and its order, visible in the contract.
- Error payloads: the path an `OSError` carries is not modelled exactly. For example `Jobs.CreateSeedDirs` reports
  `seed0` of the job when a file blocks the way, where Python names the first missing component below that file.
- Projects.LocalProject.NewJob: overridden keys that are absent from the in-file are added, as the code does.
- Projects.LocalProject.NewJob: the `except KeyError` at LAMMPS_Project.py:110-111 is unreachable, because
  assigning to a dict never raises it. It is not modelled.
- Batching.Batches: a zero batch size is an error (`Parallel(n_jobs=0)` and `range` with step 0 both raise). A
  negative one gives no batch, since `range` with a negative step from 0 to a non-negative length is empty.
- ParamSweep.Setup: `n_runs` is a natural number, as is `n_seeds` in Jobs.Create and Projects.LocalProject.NewJob.
  The source accepts a negative count; every use of it is a `range(n)`, which is then empty, so such a job acts as one
  with 0 seeds except that it records the negative count. Every row gets the same job name, so only the first row makes a
  job; the later `new_job` calls find the name present. This is the code's own behaviour and is modelled as written.
- Jobs.Create: on failure the job's partial folders and files stay behind. The contract bounds them (no file outside
  the job folder changes; only seed folders and their missing ancestors are added) but does not state them exactly.
  The same bound is all that `Projects.MakeJob`, `Projects.LocalProject.NewJob`, `ParamSweep.AddRow`,
  `ParamSweep.AddRows` and `ParamSweep.Setup` state about the file system after a job error.
- Text.IsDigit: only the ASCII digits are digits. `str.isdigit` (InFile.py:45) also accepts other Unicode digits.
  A value written with decimal digits of another script (Arabic-Indic `٣`) is recorded by Python and ignored here; one
  with superscript digits passes `isdigit` and then makes `float` raise, which the model does not reproduce.
- FileSystems.Child: a name is one path component. `os.path.join` with a name that contains `/`, or with an absolute
  name, makes nested folders or replaces the parent; project and job names (job names come from the table's column
  labels) are not split or resolved that way.
- `InFile.display_variables` only prints, and is not modelled.

## Findings

| source | as written | input that shows it | evidently intended | confidence | as-written member | corrected member |
|---|---|---|---|---|---|---|
| myscripts/scripts/make_param_combos.py:82-85 | `combo[j]` and `combo_np[index_by[j]]` index the tuple of free values by the parameter's global index | `index_by = [-1, 0, -1]`, values `[[1, 2], [5, 6], [7, 8]]`, combination `(1, 7)`: `combo[2]` is past the 2-tuple | index by the parameter's position among the free parameters, which is correct only when the free parameters come first | not executed | ParamCombos.CellAsWritten, ParamCombos.AsWrittenMisindexes | ParamCombos.Cell, ParamCombos.FreeColumn |
