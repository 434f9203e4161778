# nd-image-view core in Dafny

nd-image-view is a JavaFX viewer for sets of images that vary along several named
dimensions. One dimension, the plot-by dimension, is laid out across a grid of image
views. The user picks a value for each of the other, selectable, dimensions from a
choice box. This project models the logic beneath the widgets and proves its properties:

- **Dimensions** (`dimensions.dfy`): the `Dimension` record, with a name, a title and
  a value list. Instances are told apart by object identity, written here as a `ref`
  number.
- **Config** (`config.dfy`, `config_properties.dfy`, `config_checks.dfy`): the
  configuration file reader.
  - One pass over the lines, inside or outside a `[dimension]` block, collects `path`,
    `name_format`, `plot_by`, the dimensions and the `grid_r_c` lines.
  - Five validations follow, in a fixed order.
  - The grid is then sized and filled.
  - Apart from a failed allocation of the grid array (see "Left out"), the constructor
    ends in one of three ways: `Success(config)`, `ConfigException(msg)`, or
    `UncheckedFailure` (the array-index error a negative grid index causes).
  - `Parse` is the constructor's loops and grid array, proved to compute `ParseSpec`.
    `ParseSpec` states the whole constructor as functions over the lines.
- **JavaString** (`javastring.dfy`): the Java string operations the reader relies on.
  - `trim` (characters up to `' '`);
  - `split` on one character, dropping trailing empty strings;
  - `Integer.parseInt`, over ASCII digits;
  - 32-bit wrap-around of `+ 1`.
- **PathManager** (`imagepathmanager.dfy`): which dimensions are selectable, and the
  image file that a full set of coordinates names.
  - The file name comes from `name_format` by replacing each dimension's token, with
    the `?` elision rule for empty values.
  - The existence check is a parameter `fileExists: string -> bool`.
- **Controller** (`imagecontroller.dfy`): `selectImageSet` builds the coordinate array
  by splicing each view's alias into the selected coordinates at the plot-by index, and
  refreshes every registered view. A view is modelled by the file it shows: an
  `Option<string>`, where `None` is a cleared view.
- **Combinations** (`combinations.dfy`): the cartesian product of the selectable
  dimensions' values, in the selector's enumeration order (first dimension outermost).
- **Selector** (`variableselector.dfy`): the dimension choice panel.
  - Each choice box is modelled as `Box(items, value)`, held in an array.
  - The constructor makes the initial selection.
  - `repopulateChoices` offers, for each box, only the values that still lead to an
    image.
  - The listener records the last change, unless `disableImageSelection` suppresses it.
  - "Switch to last" goes back to the value recorded by the last change.

The three controller queries the selector calls are defined after `ImagePathManager`:
`getSelectableDimensions`, `getNonSelectableDimension` and `getPath(nonSelectable,
selected...)`. They do not appear in `ImageController.java`.

Where the code and its description differ, the model follows the code:

- The combinations of an empty dimension list are the empty list, not one empty tuple.
- A directive line read inside an open block clears the block flag, so the block is
  lost. The appends guarded by `if(definingDimension)` right after that assignment
  cannot run.
- These do not exist in the code and are not added:
  - row or column proportions;
  - membership checks on grid cell values;
  - errors for duplicate directives (a later one overwrites an earlier one);
  - a limit on `${settings}` cells.

## Model

| member | source | states |
|---|---|---|
| Dimensions.NewDimension | src/main/java/uk/ac/rdg/resc/nd/Dimension.java:58-83 | The getters return exactly the name, title and value list given to the constructor. |
| Dimensions.Dimension.AddValue | src/main/java/uk/ac/rdg/resc/nd/Config.java:92-94 | Appending through `getValues()` keeps the object, its name and its title, and the new value shows up last. |
| Dimensions.AddValuesAppends | src/main/java/uk/ac/rdg/resc/nd/Config.java:85-96 | Appends made one by one show up in `getValues()` in order, duplicates kept, on the same object, with name and title unchanged. |
| Dimensions.EqualsIsIdentity | src/main/java/uk/ac/rdg/resc/nd/Dimension.java:38-84 | `equals` is not overridden: two dimensions are equal exactly when they are the same object, and never equal to null. |
| JavaString.Trim | src/main/java/uk/ac/rdg/resc/nd/Config.java:86 | `trim()` is empty exactly when every character is at most `' '`; otherwise it begins and ends with a character above `' '`. |
| JavaString.TrimPadded | src/main/java/uk/ac/rdg/resc/nd/Config.java:86 | Trimming a core padded on both sides by characters up to `' '` gives back the core. |
| JavaString.SplitAll | src/main/java/uk/ac/rdg/resc/nd/Config.java:99 | Splitting gives at least one piece, no piece holds the delimiter, and joining the pieces with the delimiter gives back the input. |
| JavaString.SplitAllJoin | src/main/java/uk/ac/rdg/resc/nd/Config.java:99 | Joining delimiter-free pieces and splitting again gives back the pieces. |
| JavaString.DropTrailingEmpty | src/main/java/uk/ac/rdg/resc/nd/Config.java:99 | `split` keeps a prefix of the pieces, ending in a non-empty one, and drops only empty pieces. |
| JavaString.SplitPair | src/main/java/uk/ac/rdg/resc/nd/Config.java:99-105 | `a=b` followed by any number of `=` splits into exactly `[a, b]` when `b` is non-empty. |
| JavaString.SplitTriple | src/main/java/uk/ac/rdg/resc/nd/Config.java:215-216 | `a_b_c` with a non-empty `c` splits into exactly `[a, b, c]`. |
| JavaString.SplitTrailingDelimiters | src/main/java/uk/ac/rdg/resc/nd/Config.java:99-100 | A key followed only by delimiters splits into one piece, so the two-part check fails. |
| JavaString.SplitTwoShape | src/main/java/uk/ac/rdg/resc/nd/Config.java:99-105 | A split into two parts means the line is `a`, one delimiter, a non-empty `b`, then only delimiters. |
| JavaString.ParseInt | src/main/java/uk/ac/rdg/resc/nd/Config.java:221 | A parsed value is a 32-bit int, its text is an optional sign followed by at least one digit and nothing else, and the value is the digits' value, negated after `-`. |
| JavaString.ParseIntAccepts | src/main/java/uk/ac/rdg/resc/nd/Config.java:221 | Conversely, digits with an optional `+` or `-`, whose value fits in 32 bits, always parse to that value. |
| JavaString.ParseIntDecimal | src/main/java/uk/ac/rdg/resc/nd/Config.java:221 | The decimal text of any n up to 2^31-1 parses to n, and with a leading `-` to -n. |
| JavaString.AddInt32 | src/main/java/uk/ac/rdg/resc/nd/Config.java:221 | Java int addition: the exact sum when it fits, otherwise the sum wrapped by 2^32. |
| Config.WithSlash | src/main/java/uk/ac/rdg/resc/nd/Config.java:106-108 | The stored path always ends in `/`, and a `/` is added only when the value lacks one. |
| Config.FirstNamed | src/main/java/uk/ac/rdg/resc/nd/Config.java:193-200 | The first index whose dimension has the given name, or none when no dimension has it. |
| Config.GridIndices | src/main/java/uk/ac/rdg/resc/nd/Config.java:215-234 | Reading a grid key fails only with the form message, or with the row or column message followed by the key. |
| Config.ScanErrSticky | src/main/java/uk/ac/rdg/resc/nd/Config.java:100-104 | Once a line raises an exception, later lines do not change the outcome. |
| Config.DirectivePrefixesExclusive | src/main/java/uk/ac/rdg/resc/nd/Config.java:98-152 | At most one of the four directive prefixes matches a line, so at most one directive branch runs. |
| Config.ApplyDirectives | src/main/java/uk/ac/rdg/resc/nd/Config.java:98-167 | The four directive branches compute exactly `Directive`. |
| Config.ReadLine | src/main/java/uk/ac/rdg/resc/nd/Config.java:60-167 | One iteration of the reading loop computes exactly `Step`. |
| Config.OpenBlock | src/main/java/uk/ac/rdg/resc/nd/Config.java:68-83 | A `[x]` line moves the open block onto the list and opens a new block named `x` (`""` for `.`) and titled `x`. |
| Config.BlockLine | src/main/java/uk/ac/rdg/resc/nd/Config.java:85-96 | Inside a block, the line becomes a value and is then read as a directive, as `Step` says. |
| Config.ReadConfigLines | src/main/java/uk/ac/rdg/resc/nd/Config.java:60-174 | The reading loop and the final block close compute exactly `Scan`. |
| Config.GridEntriesErrSticky | src/main/java/uk/ac/rdg/resc/nd/Config.java:211-234 | The first unreadable grid key decides the exception, whatever follows. |
| Config.FillGridNoneSticky | src/main/java/uk/ac/rdg/resc/nd/Config.java:241-255 | Once a cell write falls outside the grid, the fill fails. |
| Config.FindPlotByIndex | src/main/java/uk/ac/rdg/resc/nd/Config.java:193-200 | The plot-by dimension is found exactly when some dimension has that name, and the index is the first such one. |
| Config.ReadGridKey | src/main/java/uk/ac/rdg/resc/nd/Config.java:215-234 | Reading one key in the sizing loop computes exactly `GridIndices`. |
| Config.SizeGridLine | src/main/java/uk/ac/rdg/resc/nd/Config.java:215-234 | One sizing step raises the key's error, or takes the wrapped maximum of `row + 1` and of `col + 1`. |
| Config.SizeGridLines | src/main/java/uk/ac/rdg/resc/nd/Config.java:211-235 | The sizing loop computes `SizeGrid`: the first key error, or the size from all keys. |
| Config.ReadGridLine | src/main/java/uk/ac/rdg/resc/nd/Config.java:245-253 | The filling loop reads back the row and column the sizing loop read, and the trimmed value with `.` read as `""`. |
| Config.FillGridLine | src/main/java/uk/ac/rdg/resc/nd/Config.java:245-254 | One fill step writes exactly one cell when the indices are inside the array, and changes nothing otherwise. |
| Config.FillCells | src/main/java/uk/ac/rdg/resc/nd/Config.java:241-255 | The fill loop succeeds exactly when `FillGrid` does, and leaves the array holding `FillGrid`'s cells. |
| Config.FillGridLayout | src/main/java/uk/ac/rdg/resc/nd/Config.java:240-255 | Allocating the layout and running the fill loop computes exactly `FillGrid`. |
| Config.Parse | src/main/java/uk/ac/rdg/resc/nd/Config.java:53-256 | The constructor computes exactly `ParseSpec`: the same config, the same exception message, or the array-index failure (allocation failure aside). |
| ConfigChecks.GridKeyRoundTrip | src/main/java/uk/ac/rdg/resc/nd/Config.java:215-228 | `grid_r_c` written with decimal indices up to 2^31-1 reads back as row r and column c. |
| ConfigChecks.GridKeySplit | src/main/java/uk/ac/rdg/resc/nd/Config.java:215 | `grid_r_c` splits on `_` into `grid`, r and c. |
| ConfigChecks.DecimalTrimmed | src/main/java/uk/ac/rdg/resc/nd/Config.java:228 | Trimming the column token of a decimal number leaves it unchanged. |
| ConfigChecks.EntriesKeysRead | src/main/java/uk/ac/rdg/resc/nd/Config.java:215-234 | When the grid keys are read without error, every key has three parts with an integer row and an integer trimmed column. |
| ConfigChecks.GridEntriesOkIff | src/main/java/uk/ac/rdg/resc/nd/Config.java:215-234 | The keys are read without error exactly when every key splits into three parts with an integer row and an integer trimmed column. |
| ConfigChecks.GridEntriesFirstError | src/main/java/uk/ac/rdg/resc/nd/Config.java:215-234 | The exception raised is the error of a key whose earlier keys all read cleanly. |
| ConfigChecks.SizeOfIsMax | src/main/java/uk/ac/rdg/resc/nd/Config.java:221-228 | The row count is 0 or the largest wrapped `row + 1` over the keys, and the same holds for columns. |
| ConfigChecks.InsideSizedGrid | src/main/java/uk/ac/rdg/resc/nd/Config.java:221-254 | A cell write lands inside the sized grid exactly when its row and column are not negative and `+ 1` does not wrap. |
| ConfigChecks.FillGridNoneIff | src/main/java/uk/ac/rdg/resc/nd/Config.java:254 | The fill fails exactly when some write lies outside the array. |
| ConfigChecks.LastAtMeans | src/main/java/uk/ac/rdg/resc/nd/Config.java:241-255 | `LastAt` is the value of the last line naming the cell, and none exactly when no line names it. |
| ConfigChecks.FillGridCells | src/main/java/uk/ac/rdg/resc/nd/Config.java:241-255 | After a successful fill, each cell holds the last value written to it, and null if no line wrote it. |
| ConfigChecks.ArrayIndexFailure | src/main/java/uk/ac/rdg/resc/nd/Config.java:254 | The grid phase ends in the unchecked array-index failure exactly when the keys read, the grid is not empty, and some index is negative or wraps. |
| ConfigChecks.NoGridIff | src/main/java/uk/ac/rdg/resc/nd/Config.java:236-239 | With readable keys, "no grid" is raised exactly when no key counts a row or no key counts a column. |
| ConfigChecks.GridIndicesMessage | src/main/java/uk/ac/rdg/resc/nd/Config.java:216-233 | A key error is always a grid message: the form message itself, or the row or column message followed by further text. |
| ConfigChecks.GridEntriesMessage | src/main/java/uk/ac/rdg/resc/nd/Config.java:211-234 | The sizing loop raises only grid messages: the form message, or the row or column message followed by further text. |
| ConfigChecks.BuildGridMessage | src/main/java/uk/ac/rdg/resc/nd/Config.java:211-239 | The grid phase raises only grid messages (the form message, or the row or column message followed by further text) and the "no grid" message. |
| ConfigChecks.MessagesDistinct | src/main/java/uk/ac/rdg/resc/nd/Config.java:177-204 | The five validation messages differ from each other and from every grid-phase message, so an outcome names its check. |
| ConfigChecks.ValidateNoPath | src/main/java/uk/ac/rdg/resc/nd/Config.java:177-179 | The missing-path exception is raised exactly when no path was read. |
| ConfigChecks.ValidateNoNameFormat | src/main/java/uk/ac/rdg/resc/nd/Config.java:181-183 | The missing-name-format exception is raised exactly when a path but no name format was read. |
| ConfigChecks.ValidateNoPlotBy | src/main/java/uk/ac/rdg/resc/nd/Config.java:185-187 | The missing-plot-by exception is raised exactly when path and name format, but no plot-by, were read. |
| ConfigChecks.ValidateNoDimensions | src/main/java/uk/ac/rdg/resc/nd/Config.java:189-191 | The no-dimensions exception is raised exactly when the three settings are present and no dimension was closed. |
| ConfigChecks.ValidateNoPlotDimension | src/main/java/uk/ac/rdg/resc/nd/Config.java:193-204 | The unknown-plot-by exception is raised exactly when all earlier checks pass and no dimension has the plot-by name. |
| ConfigChecks.ValidateFacts | src/main/java/uk/ac/rdg/resc/nd/Config.java:177-204 | The checks run in order and the first failing check decides the message. The five messages differ, and an exception raised after all five checks pass carries none of them. |
| ConfigChecks.ValidateCases | src/main/java/uk/ac/rdg/resc/nd/Config.java:177-239 | The first failing check decides the outcome. Past all five checks, the only exceptions are the grid form message, the row or column message followed by further text, and the "no grid" message. |
| ConfigChecks.ScanMessage | src/main/java/uk/ac/rdg/resc/nd/Config.java:100-158 | The reading loop raises only the four "must be of the form" messages. |
| ConfigChecks.ParseValid | src/main/java/uk/ac/rdg/resc/nd/Config.java:53-256 | A parsed config satisfies the following, and its dimensions are distinct objects created by this parse: the path ends in `/`; the plot-by index is the first dimension with that name; rows and columns are positive; the layout is rows by cols. |
| ConfigChecks.ParseGridCells | src/main/java/uk/ac/rdg/resc/nd/Config.java:240-255 | Each cell of a parsed grid holds the value of the last grid line naming it, and null when none does. |
| ConfigChecks.EqualsProperties | src/main/java/uk/ac/rdg/resc/nd/Config.java:293-320 | `equals` is reflexive, symmetric and transitive, false for null, and blind to path and plot-by index. |
| ConfigChecks.SeparateParsesNeverEqual | src/main/java/uk/ac/rdg/resc/nd/Config.java:293-306 | Two configs parsed separately are never equal, because their dimension lists hold different objects. |
| ConfigProperties.ScanSnoc | src/main/java/uk/ac/rdg/resc/nd/Config.java:60-168 | Reading one more line is one more `Step` on the state so far, or keeps the earlier exception. |
| ConfigProperties.ScanSnocSame | src/main/java/uk/ac/rdg/resc/nd/Config.java:60-168 | Two inputs that reach the same state stay together when the same line follows. |
| ConfigProperties.SkippedLineIgnored | src/main/java/uk/ac/rdg/resc/nd/Config.java:61-66 | Inserting a `#` line or a blank line anywhere leaves the reading outcome unchanged. |
| ConfigProperties.SkippedLineIgnoredByParse | src/main/java/uk/ac/rdg/resc/nd/Config.java:61-66 | Inserting a `#` line or a blank line anywhere leaves the constructor's outcome unchanged. |
| ConfigProperties.FindBracketFromIff | src/main/java/uk/ac/rdg/resc/nd/Config.java:68-70 | `find()` succeeds exactly when some `[` is followed on the same line by a `]`. The group runs from the first such `[` to the last `]` before a line terminator (greedy). |
| ConfigProperties.BracketGroupIff | src/main/java/uk/ac/rdg/resc/nd/Config.java:68-76 | A line opens a block exactly when it holds a `[`…`]` pair, anywhere in it. |
| ConfigProperties.BracketGroupGreedy | src/main/java/uk/ac/rdg/resc/nd/Config.java:68-77 | Text around `[x]` without further brackets yields the group `x`. |
| ConfigProperties.NoBracketNoGroup | src/main/java/uk/ac/rdg/resc/nd/Config.java:68-70 | A line without `[` opens no block. |
| ConfigProperties.StepOutsideBlock | src/main/java/uk/ac/rdg/resc/nd/Config.java:85-167 | Outside a block, a non-bracket line is read only as a directive, untrimmed. |
| ConfigProperties.StepInsideBlock | src/main/java/uk/ac/rdg/resc/nd/Config.java:85-98 | Inside a block, the line is trimmed and appended as a value, with `.` as `""`, and the trimmed line is then read as a directive. |
| ConfigProperties.ValueLineStep | src/main/java/uk/ac/rdg/resc/nd/Config.java:85-96 | A non-directive line inside a block appends exactly its trimmed value and changes nothing else. |
| ConfigProperties.HeaderStep | src/main/java/uk/ac/rdg/resc/nd/Config.java:68-83 | A `[x]` line closes any open block onto the list and opens a fresh block. |
| ConfigProperties.BlockGrows | src/main/java/uk/ac/rdg/resc/nd/Config.java:85-96 | Each further value line extends the open block's values by one. |
| ConfigProperties.BlockCollectsValues | src/main/java/uk/ac/rdg/resc/nd/Config.java:68-96 | A header followed by value lines gives a block holding those values, trimmed and in order, after the previous block has been moved onto the list. |
| ConfigProperties.BlockClosedByHeaderOrEnd | src/main/java/uk/ac/rdg/resc/nd/Config.java:71-72 | An open block reaches the dimension list when the next header arrives, and also at the end of input. |
| ConfigProperties.DirectiveClosesBlock | src/main/java/uk/ac/rdg/resc/nd/Config.java:109-115 | A directive read inside a block clears the block flag and leaves the dimension list as it was. |
| ConfigProperties.IndentedLineOutsideBlockIgnored | src/main/java/uk/ac/rdg/resc/nd/Config.java:85-98 | Outside a block, an indented line is not trimmed, so it matches no directive and changes nothing. |
| ConfigProperties.DirectiveStoresValue | src/main/java/uk/ac/rdg/resc/nd/Config.java:98-159 | `key=value` stores the trimmed value, overwriting any earlier one; a `path` gets its `/`; a grid line is queued untrimmed; the block flag is cleared. |
| ConfigProperties.DirectiveFailsIff | src/main/java/uk/ac/rdg/resc/nd/Config.java:98-158 | A directive line fails exactly when its split does not have two parts, and fails with its own form message. A non-directive line is left alone. |
| ConfigProperties.DirectiveMalformed | src/main/java/uk/ac/rdg/resc/nd/Config.java:99-104 | A directive key with no `=`, with only trailing `=`, or with two `=` before a non-empty part, raises the exception. |
| ConfigProperties.DirectiveTrailingEquals | src/main/java/uk/ac/rdg/resc/nd/Config.java:99-104 | `key=` (with any number of `=`) raises the form exception, since `split` drops the empty right side. |
| ConfigProperties.DirectiveTwoEquals | src/main/java/uk/ac/rdg/resc/nd/Config.java:99-104 | `key=a=b` raises the form exception. |
| ConfigProperties.DirectiveFrame | src/main/java/uk/ac/rdg/resc/nd/Config.java:98-167 | A directive never touches the dimension list or the open block, never opens a block, and stores only paths ending in `/`. |
| ConfigProperties.StepInvariants | src/main/java/uk/ac/rdg/resc/nd/Config.java:60-168 | Each line keeps the stored path slashed and the dimension objects in creation order, and creates at most one object. |
| ConfigProperties.ScanInvariants | src/main/java/uk/ac/rdg/resc/nd/Config.java:60-168 | After reading, the path is slashed, the dimensions are in creation order, and at most one object was created per line. |
| ConfigProperties.ClosedRefs | src/main/java/uk/ac/rdg/resc/nd/Config.java:169-174 | The dimension list, after the final close, holds distinct objects created by this parse, in creation order. |
| ConfigProperties.ForgottenStep | src/main/java/uk/ac/rdg/resc/nd/Config.java:60-168 | A block that is neither open nor listed never comes back. |
| ConfigProperties.ForgottenScan | src/main/java/uk/ac/rdg/resc/nd/Config.java:60-168 | A block that is neither open nor listed stays that way through any later lines. |
| ConfigProperties.ForgottenAfterDirective | src/main/java/uk/ac/rdg/resc/nd/Config.java:109-115 | A directive read inside a block leaves that block neither open nor listed. |
| ConfigProperties.ForgottenNotParsed | src/main/java/uk/ac/rdg/resc/nd/Config.java:169-204 | A block neither open nor listed at the end is not among the parsed config's dimensions. |
| ConfigProperties.ParsedPrefix | src/main/java/uk/ac/rdg/resc/nd/Config.java:53-168 | When the whole file parses, every prefix of it reads without exception. |
| ConfigProperties.LostBlock | src/main/java/uk/ac/rdg/resc/nd/Config.java:109-115 | A block interrupted by a directive line is never among the parsed dimensions. |
| ConfigProperties.ValidateSuccess | src/main/java/uk/ac/rdg/resc/nd/Config.java:177-204 | When validation passes, the settings, the closed dimensions and the first matching plot-by index are carried into the config. |
| ConfigProperties.BuildGridSuccess | src/main/java/uk/ac/rdg/resc/nd/Config.java:211-255 | A successful grid phase sets positive sizes, the maximum of `index + 1`, and the filled layout, and leaves the other fields alone. |
| PathManager.ImagePathManager.constructor | src/main/java/uk/ac/rdg/resc/nd/ImagePathManager.java:38-40 | The manager keeps the config it is given. |
| PathManager.ImagePathManager.GetVariableDimensions | src/main/java/uk/ac/rdg/resc/nd/ImagePathManager.java:42-50 | The loop computes `VariableDimensions`: the dimensions not named by plot-by, in order. |
| PathManager.VariableDimensionsMembers | src/main/java/uk/ac/rdg/resc/nd/ImagePathManager.java:42-50 | A dimension is selectable exactly when it is configured and not named by plot-by. The count is the total minus the number of plot-by-named dimensions. |
| PathManager.VariableDimensionsSplice | src/main/java/uk/ac/rdg/resc/nd/ImagePathManager.java:42-50 | When only the dimension at index p has the plot-by name, the selectable dimensions are the rest, in order. |
| PathManager.NoneNamed | src/main/java/uk/ac/rdg/resc/nd/ImagePathManager.java:42-50 | When no dimension has the plot-by name, every dimension is selectable. |
| PathManager.SelectableCount | src/main/java/uk/ac/rdg/resc/nd/ImagePathManager.java:42-50 | In a valid config there is exactly one fewer selectable dimension than configured exactly when the plot-by name is unique. |
| PathManager.ImagePathManager.GetPath | src/main/java/uk/ac/rdg/resc/nd/ImagePathManager.java:52-81 | The method computes `PathOf`: null on a count mismatch; otherwise `path` plus the name with every dimension substituted in order, kept only if it exists. |
| PathManager.PathNeedsAllCoords | src/main/java/uk/ac/rdg/resc/nd/ImagePathManager.java:53-80 | A non-null result needs one coordinate per dimension, exists, and lies under `path`. |
| PathManager.ReplaceOptionalNoToken | src/main/java/uk/ac/rdg/resc/nd/ImagePathManager.java:61 | A name without the token is left unchanged by the replacement for a non-empty value. |
| PathManager.RemoveElidedNoToken | src/main/java/uk/ac/rdg/resc/nd/ImagePathManager.java:71 | A name without the token is left unchanged by the elision pass. |
| PathManager.RemoveTokenNoToken | src/main/java/uk/ac/rdg/resc/nd/ImagePathManager.java:72 | A name without the token is left unchanged by the token-removal pass. |
| PathManager.SubstituteNoToken | src/main/java/uk/ac/rdg/resc/nd/ImagePathManager.java:57-74 | A dimension whose token does not occur leaves the name unchanged, whatever its value. |
| PathManager.ReplaceRender | src/main/java/uk/ac/rdg/resc/nd/ImagePathManager.java:61 | For any name built from plain text and tokens (each optionally `?`-prefixed), the replacement puts the value in place of every token together with its `?`. |
| PathManager.ReplaceEveryToken | src/main/java/uk/ac/rdg/resc/nd/ImagePathManager.java:60-61 | A non-empty value replaces every `${name}` and every `?${name}` of the template. |
| PathManager.ElideRender | src/main/java/uk/ac/rdg/resc/nd/ImagePathManager.java:71 | For an empty value, each `?${name}` is removed together with the one character before it, left to right. |
| PathManager.RemoveTokenElided | src/main/java/uk/ac/rdg/resc/nd/ImagePathManager.java:72 | After elision, removing the remaining tokens leaves only the template's text. |
| PathManager.EmptyValueElides | src/main/java/uk/ac/rdg/resc/nd/ImagePathManager.java:71-72 | An empty value drops every token, and every `?` token also drops the character before it. |
| PathManager.LoneQuestionMark | src/main/java/uk/ac/rdg/resc/nd/ImagePathManager.java:71-72 | `?${name}` at the very start, with an empty value, leaves a lone `?`. |
| PathManager.TokensDistinct | src/main/java/uk/ac/rdg/resc/nd/ImagePathManager.java:58-61 | One dimension's token never starts where another dimension's token starts. |
| PathManager.NoTokenAroundOther | src/main/java/uk/ac/rdg/resc/nd/ImagePathManager.java:58-61 | Text around another dimension's token holds no occurrence of this dimension's token. |
| PathManager.ResolveTwo | src/main/java/uk/ac/rdg/resc/nd/ImagePathManager.java:57-74 | With two dimensions, the name is the first substitution followed by the second, applied to its output. |
| PathManager.FirstOfTwo | src/main/java/uk/ac/rdg/resc/nd/ImagePathManager.java:58-61 | In `${x}_?${y}ext`, substituting a non-empty x touches only the x token. |
| PathManager.SecondOfTwo | src/main/java/uk/ac/rdg/resc/nd/ImagePathManager.java:58-72 | Then substituting y gives `a_b` + ext, or `a` + ext when y is empty (the `_` goes with it). |
| PathManager.TwoDimensionFormat | src/main/java/uk/ac/rdg/resc/nd/ImagePathManager.java:57-74 | `${x}_?${y}ext` with values a and b resolves to `a_b` + ext, or to `a` + ext when b is empty. |
| PathManager.ElisionExample | src/main/java/uk/ac/rdg/resc/nd/ImagePathManager.java:60-72 | `${x}_?${y}.png` with x = `foo` and y empty resolves to `foo.png`. |
| PathManager.FilledExample | src/main/java/uk/ac/rdg/resc/nd/ImagePathManager.java:60-72 | `${x}_?${y}.png` with x = `foo` and y = `bar` resolves to `foo_bar.png`. |
| Controller.Splice | src/main/java/uk/ac/rdg/resc/nd/ImageController.java:62-71 | The path array has one more slot: the alias at the plot-by index, earlier coordinates in place, and later ones shifted right by one. |
| Controller.SpliceOfParts | src/main/java/uk/ac/rdg/resc/nd/ImageController.java:62-71 | Any array laid out that way is the splice. |
| Controller.SpliceRemove | src/main/java/uk/ac/rdg/resc/nd/ImageController.java:62-71 | Removing the plot-by slot from the path array gives back the selected coordinates. |
| Controller.OnlyPlotSlotDiffers | src/main/java/uk/ac/rdg/resc/nd/ImageController.java:70-72 | From one view to the next only the plot-by slot changes, and the arrays are equal exactly when the aliases are. |
| Controller.Refreshed | src/main/java/uk/ac/rdg/resc/nd/ImageController.java:70-78 | After the refresh, exactly the registered aliases have views. |
| Controller.RefreshedPointwise | src/main/java/uk/ac/rdg/resc/nd/ImageController.java:70-78 | A map with the same aliases, each showing its spliced path, is the refreshed map. |
| Controller.RefreshIdempotent | src/main/java/uk/ac/rdg/resc/nd/ImageController.java:70-78 | Refreshing twice with the same coordinates shows the same as refreshing once. |
| Controller.SplicedPathResolves | src/main/java/uk/ac/rdg/resc/nd/ImageController.java:62-72 | In a valid config with one coordinate per selectable slot, the splice has the dimension count, so the count guard of `getPath` never fires: each view gets `path` plus the resolved name whenever that file exists. |
| Controller.ControllerPath | src/main/java/uk/ac/rdg/resc/nd/VariableSelector.java:180 | A path found for a non-selectable value exists, and the plot-by index lies within the spliced array. |
| Controller.SelectOnValidConfig | src/main/java/uk/ac/rdg/resc/nd/ImageController.java:56-79 | In a valid config, `selectImageSet` fails only on the count check, which touches no view; success refreshes every view. |
| Controller.ImageController.constructor | src/main/java/uk/ac/rdg/resc/nd/ImageController.java:45-50 | A new controller has no views and keeps its config and path manager. |
| Controller.ImageController.AddImageView | src/main/java/uk/ac/rdg/resc/nd/ImageController.java:52-54 | Registering a view under an alias replaces any earlier view under that alias and leaves the others alone. |
| Controller.ImageController.SelectImageSet | src/main/java/uk/ac/rdg/resc/nd/ImageController.java:56-79 | A wrong count throws IllegalArgumentException with its message and touches no view. Otherwise each registered view shows the file for its spliced coordinates, or nothing. An out-of-range plot-by index fails on the array. |
| Controller.ImageController.FillPathCoords | src/main/java/uk/ac/rdg/resc/nd/ImageController.java:62-69 | The offset loop places the coordinates before the plot-by index in place and the rest one slot to the right. |
| Controller.ImageController.ShowImageSet | src/main/java/uk/ac/rdg/resc/nd/ImageController.java:70-78 | The loop over the views leaves them exactly `Refreshed`. |
| Controller.ImageController.ShowOne | src/main/java/uk/ac/rdg/resc/nd/ImageController.java:71-77 | One view gets the path for its alias, and the coordinate slots stay as they were. |
| Controller.ImageController.GetSelectableDimensions | src/main/java/uk/ac/rdg/resc/nd/VariableSelector.java:127 | The selectable dimensions are the path manager's variable dimensions. |
| Controller.NonSelectableIsPlotBy | src/main/java/uk/ac/rdg/resc/nd/VariableSelector.java:179 | In a valid config the non-selectable dimension exists, is named by `plot_by`, sits at the first index with that name, and is not among the selectable dimensions. |
| Controller.ImageController.GetPath | src/main/java/uk/ac/rdg/resc/nd/VariableSelector.java:180 | Computes `ControllerPath`: the non-selectable value spliced in at the plot-by index, then the path manager's lookup. |
| Combinations.CrossLength | src/main/java/uk/ac/rdg/resc/nd/VariableSelector.java:273-279 | One extension step multiplies the number of combinations by the value count. |
| Combinations.CrossIndex | src/main/java/uk/ac/rdg/resc/nd/VariableSelector.java:273-279 | Entry `i * n + j` of a step is combination i extended by value j, so the earlier combinations are outermost. |
| Combinations.CrossMember | src/main/java/uk/ac/rdg/resc/nd/VariableSelector.java:273-279 | The step's results are exactly the earlier combinations each extended by a value. |
| Combinations.CrossAssoc | src/main/java/uk/ac/rdg/resc/nd/VariableSelector.java:265-282 | Extending step by step is the same as extending by the product of the remaining dimensions. |
| Combinations.CrossUnit | src/main/java/uk/ac/rdg/resc/nd/VariableSelector.java:267-268 | Extending by the empty tuple alone changes nothing, as the helper does when no dimension remains. |
| Combinations.HelperIsCross | src/main/java/uk/ac/rdg/resc/nd/VariableSelector.java:265-282 | The helper extends every combination by every tuple of the remaining dimensions, in order. |
| Combinations.CombinationsAreTuples | src/main/java/uk/ac/rdg/resc/nd/VariableSelector.java:238-254 | No dimensions give no combinations (not one empty tuple). Otherwise the combinations are all tuples of the value lists, first dimension outermost. |
| Combinations.TuplesCount | src/main/java/uk/ac/rdg/resc/nd/VariableSelector.java:246-281 | The number of tuples is the product of the value counts. |
| Combinations.TuplesMember | src/main/java/uk/ac/rdg/resc/nd/VariableSelector.java:246-281 | A tuple is enumerated exactly when it has one entry per dimension and entry i is a value of dimension i. |
| Combinations.FirstOutermost | src/main/java/uk/ac/rdg/resc/nd/VariableSelector.java:246-281 | The first dimension varies slowest: entry `i * m + j` is value i of the first dimension followed by tuple j of the rest. |
| Combinations.CombinationMember | src/main/java/uk/ac/rdg/resc/nd/VariableSelector.java:238-282 | A combination is enumerated exactly when there is at least one dimension, it has one entry per dimension, and entry i is a value of dimension i. |
| Combinations.CombinationCount | src/main/java/uk/ac/rdg/resc/nd/VariableSelector.java:243-281 | The number of combinations is 0 for no dimensions and the product of the value counts otherwise. |
| Selector.FirstWithImage | src/main/java/uk/ac/rdg/resc/nd/VariableSelector.java:176-192 | The index of the first combination for which some non-selectable value has an image, or none when no combination has one. |
| Selector.Repopulated | src/main/java/uk/ac/rdg/resc/nd/VariableSelector.java:343-346 | Repopulation restores every box's selected value. |
| Selector.OfferedMember | src/main/java/uk/ac/rdg/resc/nd/VariableSelector.java:322-336 | A value is offered exactly when it is a value of the dimension and, with the other selections fixed, some non-selectable value has an image. |
| Selector.OfferedAll | src/main/java/uk/ac/rdg/resc/nd/VariableSelector.java:322-336 | When every value has an image, the full value list is offered, in order and with duplicates. |
| Selector.OfferedLength | src/main/java/uk/ac/rdg/resc/nd/VariableSelector.java:320-337 | A box never offers more items than its dimension has values. |
| Selector.RepopulateIdempotent | src/main/java/uk/ac/rdg/resc/nd/VariableSelector.java:322-346 | Repopulating twice, with the same selections and files, gives the same boxes as repopulating once. |
| Selector.CurrentStaysOffered | src/main/java/uk/ac/rdg/resc/nd/VariableSelector.java:318-345 | When the current selection has an image, each box still offers its current value after repopulation. |
| Selector.InitialSelection | src/main/java/uk/ac/rdg/resc/nd/VariableSelector.java:176-192 | The boxes get a full selection exactly when some combination has an image, and then each value belongs to its dimension. Otherwise the boxes stay unset. |
| Selector.FirstIsIndex | src/main/java/uk/ac/rdg/resc/nd/VariableSelector.java:178-191 | The combination the loop stops at is the first with an image. |
| Selector.VariableSelector.constructor | src/main/java/uk/ac/rdg/resc/nd/VariableSelector.java:79-227 | The constructor makes one box per selectable dimension, offering all of its values. The boxes hold the first combination with an image, written while selection is suppressed: nothing is recorded and the toggle stays disabled. |
| Selector.VariableSelector.InitialSelect | src/main/java/uk/ac/rdg/resc/nd/VariableSelector.java:176-192 | The search loop writes `InitialValues` into the boxes and leaves their items alone. |
| Selector.VariableSelector.WriteCombination | src/main/java/uk/ac/rdg/resc/nd/VariableSelector.java:187-189 | Box i gets value `c[i]`, items unchanged. |
| Selector.VariableSelector.AllCoordCombinations | src/main/java/uk/ac/rdg/resc/nd/VariableSelector.java:238-254 | The loops compute `Combinations` on a copy, so the caller's list is not changed. |
| Selector.VariableSelector.CoordCombinationsHelper | src/main/java/uk/ac/rdg/resc/nd/VariableSelector.java:265-282 | The nested loops compute `CombinationsHelper`. |
| Selector.VariableSelector.AnyImage | src/main/java/uk/ac/rdg/resc/nd/VariableSelector.java:179-185 | The inner loop reports whether some non-selectable value yields a path. |
| Selector.VariableSelector.GetSelectedValues | src/main/java/uk/ac/rdg/resc/nd/VariableSelector.java:287-293 | The selected value of each box, in box order, with null for an unset box. |
| Selector.VariableSelector.SelectImageSet | src/main/java/uk/ac/rdg/resc/nd/VariableSelector.java:298-301 | The controller gets the current selection. When it succeeds the boxes are repopulated; the last-change state is untouched. |
| Selector.VariableSelector.Repopulate | src/main/java/uk/ac/rdg/resc/nd/VariableSelector.java:307-348 | Each box's items become the offered values and its selection is restored, with the listener suppressed (nothing recorded). |
| Selector.VariableSelector.OfferedFor | src/main/java/uk/ac/rdg/resc/nd/VariableSelector.java:320-337 | The value loop for box i computes `Offered` against the current selection. |
| Selector.VariableSelector.SetValue | src/main/java/uk/ac/rdg/resc/nd/VariableSelector.java:146-159 | Setting the same value does nothing. A real change records the box and its old value, enables the toggle when the old value was set, and selects images, repopulating on success. |
| Selector.VariableSelector.UserSelect | src/main/java/uk/ac/rdg/resc/nd/VariableSelector.java:146-158 | Choosing the current value changes nothing, views included. A new choice sets the box, records the box and its previous value, enables the toggle when that value was set, leaves the controller's status and views as `selectImageSet` on the new selection gives them, and repopulates the boxes when that succeeds; the other boxes keep their selections. |
| Selector.VariableSelector.SwitchToLast | src/main/java/uk/ac/rdg/resc/nd/VariableSelector.java:101-109 | With a recorded change, the box goes back to the recorded value, and the value it leaves is recorded in turn, so the next press switches forth; the views then show the image set of the restored selection, exactly as `selectImageSet` gives it, and the boxes are repopulated when that succeeds. Without a recorded change, or when the box already holds the recorded value, nothing changes: boxes, views, record and toggle stay. |

## Left out

- Widgets and layout are not modelled: JavaFX `ChoiceBox`, `Button`, `Label`,
  `TitledPane` and `GridPane`, the documentation panel, and the fullscreen and quit
  buttons. Choice boxes become `Box` values, and the toggle's disabled state is a field.
- Image loading (`new Image("file:" + path.getAbsolutePath())`) is not modelled. A view
  is the path it shows, and `None` stands for a cleared view.
- The view objects are not modelled. The views map goes from alias to shown path; the
  aliasing of `ImageView` objects and their identity are not captured.
- Iteration order: the update of `views` is proved for the whole map regardless of
  order, so the `HashMap` iteration order is not modelled.
- File reading is not modelled: `BufferedReader`/`FileReader` and `IOException`. The
  lines are a `seq<string>`.
- `File.exists()` is a parameter `fileExists: string -> bool`, one snapshot for a whole
  operation.
- `NDImageView` (the application entry point) is not part of this model.
- `Config.hashCode` is not modelled: integer hashing with no property to prove beside
  `equals`.
- `printStackTrace` is not modelled.
- PathManager.Substitute: the three `replaceAll` calls are modelled as literal scans.
  These agree with the regex engine only when the dimension name holds no regex
  metacharacters and the value holds no `$` or `\`. Other names and values are
  outside the model. The model states no precondition for this; it simply reads
  every name literally.
- Selector.VariableSelector.SetValue, Selector.VariableSelector.SwitchToLast and
  Selector.VariableSelector.SelectImageSet require every other box to hold a value when
  a change triggers selection. In Java, a null value there makes `coords[i].isEmpty()`
  (inside `getPath`, before any `replaceAll`) throw a `NullPointerException`, and the
  model does not cover that failure.
- Selector.VariableSelector.Repopulate: `setValue` with a value no longer among the
  items is modelled as restoring the selection. JavaFX's own handling of an item
  outside the list is not modelled.
- Selector.VariableSelector.GetSelectedValues: `getValue()` and the
  `getSelectedItem()` of `repopulateChoices` are treated as the same value.
- Dimensions.Dimension.AddValue: the value list is shared by reference in Java, and
  appends through `getValues()` change it in place. The model appends to a value
  carried by the parser state, which gives the same order and contents but not the
  sharing.
- Selector.VariableSelector.constructor requires the plot-by index to lie within the
  dimension list, which every valid config satisfies. Without that,
  `getNonSelectableDimension()` in Java fails with an index error.
- JavaString.ParseInt accepts only the ASCII digits `0`-`9`. Java's `Integer.parseInt`
  reads each digit with `Character.digit`, which also accepts every other Unicode
  decimal digit (for instance `grid_\u0661_0`, with an Arabic-Indic one, names row 1 in
  Java). The model raises the row message for such a key. The Unicode digit tables are
  not modelled.
- Allocation failure of `new String[gridRows][gridCols]` is not modelled. A grid index
  near `Integer.MAX_VALUE` makes the JVM throw `OutOfMemoryError` there, and
  `ParseSpec` returns `Success` for the same lines.
