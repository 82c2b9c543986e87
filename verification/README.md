# Models of three vendored libraries

The repository keeps three single-header libraries under `3rd/include`. This
project models the parts of them that do real work on text and proves what
they promise:

* **mINI** (`ini.h`), modules `Ini*`: an INI reader, a generator and a lazy
  writer that merges a changed structure into the lines of an old file, on top
  of an insertion-ordered map made of a vector and an index.
* **CLI11** (`CLI11.hpp`), modules `Cli*`: escaping and UTF-8, binary escapes,
  bracket matching and splitting, the printer and the reader of configuration
  values, the section events of a configuration file, the overflow check
  behind sizes with units, and the argument loop of an `App` without
  subcommands.
* **cxxopts** (`cxxopts.hpp`), modules `Cxx*`: the parser of bounded integers
  and `OptionParser::parse` with its counters, sequential log, positional
  slots and defaults.

Text is a `string` whose characters stand for bytes, a file is a `string` or a
sequence of lines. Code that changes things step by step is a method with the
loops of the original; its contract ties it to a function, and the theorems are
about that function. Objects that keep fields are classes: `IniMap.INIMap`,
`CxxParser.OptionParser` and `CliApp.App`. The numeric conversions, value
validators, flag values and name comparison of options are function-typed
parameters, so that the theorems hold for all of them.

## How the proofs are laid out

* `IniParser`, `IniEntry`, `IniReader`, `IniGenerator`: one line, one file, and
  the round trip through both. `IniGenerator.GenerateRoundTrip` is the main
  theorem.
* `IniWriter` holds the loop of the lazy writer with its iterator that steps
  back. `IniMeaning` defines what a list of lines means as nested maps, apart
  from the reader. `IniLazy` carries an invariant from line to line
  (`Tracks`); `IniLazyExact` shows that its conditions are the only ones;
  `IniComments` and `IniUnchanged` are about what stays, `IniOrder` and
  `IniKeyOrder` about the order of sections and keys. `IniBlocks` describes the
  merged lines section by section, with the place of the new keys, and
  `IniLayout` the spacing of what is written. `IniFile` lifts the round trip to
  the bytes of the file and `IniFileUnchanged` what stays:
  `IniFile.WriteThenRead` is the main theorem.
* `CliEscape`, `CliBinary`, `CliBrackets`, `CliConfigValue` are layers that
  `CliConfigRoundTrip` puts together for values on one line,
  `CliConfigLines` for all values and `CliConfigEntry` for the line with its
  name; `CliConfigEntry.EntryRoundTrip` is the main theorem. `CliUnits` gives
  the language of escaped texts and `CliNested` that of nested brackets;
  `CliConfigNotes`, `CliConfigLists`, `CliConfigTexts` and `CliDotted` are about
  what a file may hold and the printer does not print: comments, flags, lists
  without brackets or over several lines, escapes and lines that go on between
  triple quotes, and names with dots.
* `CliSections` replays events on an open path, `CliInputs` follows the inputs
  of entries, and `CliHeaders` reads printed section headers back;
  `CliNumbers` is arithmetic.
* `Text`, `Results` and `Arithmetic` hold what all of them use.
* `CliAppSpec` describes the argument loop and shows that it ends, `CliApp` is
  the class that runs it, `CliAppRuns` has the theorems about whole runs.
  `CliAppForms` states how the forms of an option come apart, `CliAppBlocks`
  what one named option takes, and `CliAppSteps` that a run is made of such
  steps, none of them by way of the functions of `CliAppSpec`; `CliAppPrinted`
  is about command lines that are written from settings.
* `CxxSpec` describes the command line of cxxopts, `CxxParser` is the class and
  its books, `CxxAccount`, `CxxPositional`, `CxxPrinted`, `CxxForms` and
  `CxxErrors` have the theorems about whole command lines.

## Properties that do not hold everywhere

Several natural statements are false of the code. Each is proved here with the
exact condition under which it is true.

| statement | holds exactly when | an input for which it fails |
|---|---|---|
| generate, then read, gives the structure back in order with trimmed values | names and entries are `Denotable` (no line break, NUL or carriage return, no `;` in section names, no key that starts with `;`, no key that starts with `[` while it or its value holds `;` or `]`), and in plain mode no key ends in a backslash (`IniGenerator.Generable`) | `IniGenerator.BackslashStructureIsLost` |
| a lazy write, then a read, gives the structure back with trimmed values | it holds no line end, NUL or carriage return, the lines it adds are understood, and no old value that starts with `\=` is to be changed (`IniFile.CleanStructure` and `IniLazyExact.Preservable`) | `IniLazyExact.EscapedValueIsKept`, `IniFile.LineEndIsLost` |
| a lazy write leaves the comments alone (none is ever lost or moved: `IniComments.CommentsStay`) | no new key starts with `;` (`IniComments.NewComment`) | `IniComments.NewKeyBecomesComment` |
| writing back an unchanged file leaves every byte of it as it is | it holds no NUL and no carriage return, the reader keeps all of its lines (none is unknown, and no entry stands before the first header), and every entry line has the final value of its key, or its own value starts with `\=` and the final one already stands behind what the search for the value skips (`IniFileUnchanged.UnchangedContents`, `IniUnchanged.Stays`); the last condition always holds when no section gives a key twice (`IniFileUnchanged.UnrepeatedContents`) | `IniUnchanged.RepeatedKeyIsChanged`, `IniFileUnchanged.UnknownLineIsLost` |
| extracting a binary-escaped string gives it back | it needs escaping or does not already look escaped (`CliBinary.BinaryRoundTrip`) | `CliBinary.BinaryFormIsLost` |
| a printed configuration list reads back at the start of a line behind a name and `=` | it is not empty; the option has no delimiter, or no text but those in brackets holds it (`CliConfigValue.Undivided`); and it is not a single text that is printed between triple quotes and either is changed there (`CliConfigLines.StaysQuoted`) or then counts for something else (`CliConfigLines.IsItself`) | `CliConfigRoundTrip.EmptyListIsLost`, `CliConfigLines.LastLineEndIsLost`, `CliConfigLines.DelimiterIsLost` |
| the name of an option is read from its printed line | it does not end in a tab when it is printed without quotes; with quotes it does not look like an array, and not like `B"(...)"` unless it holds a single quote (`CliConfigEntry.NameComesBack`) | `CliConfigEntry.BracketNameIsLost` |
| the section events of a file without entries named `++` or `--` are well nested and nothing is open at the end | a `[default]` header behind a section of several segments is followed by another header before the next entry and before the end (`CliSections.Stranded`, `CliSections.IsNestedLeft`) | `CliSections.DefaultLeavesOpen` |

| a comment behind a value makes no difference | the value is one piece: without a comment sign when it starts with no quote or bracket, and otherwise ending where that closes (`CliConfigNotes.IsPiece`) | `CliConfigNotes.ListBehindIsLost` |
| a list without brackets stays as it is in a line with a comment sign | it holds no comment sign itself, not even in quotes (`CliConfigLists.BareListStays`) | `#` in one of its texts |
| an array over several lines is read as the same array on one line | its first line holds more than the bracket (`CliConfigLists.ArrayOverLines`) | `CliConfigLists.BracketAloneIsText` |
| the header printed for nested names is read as their path | of several names each is one piece: in quotes, or without a bracket at its front that is not closed by its end; the last loses no tab; a single name is not `default` (`CliHeaders.PathComesBack`) | `CliHeaders.OpenBracketIsLost` |

Three things differ from what one may expect of the interfaces. Blanks in front
of a line of a configuration file make no difference to its value, unless that
stands between triple quotes: its text is then cut from the untrimmed line at a
position of the trimmed one, and a text between single quotes that is closed on
its line is never read as it would be without the blanks
(`CliConfigEntry.IndentedValue`). An unsigned integer in cxxopts takes no sign
at all, not even in `-0` (`CxxInteger.ParsedInteger`). An option of cxxopts that
fell back to its default can still be given after `--`; it is then in the list
of defaults and has a count as well (`CxxParser.OptionParser.Parse`).

## Model

| member | source | states |
|---|---|---|
| Text.TrimUnique | 3rd/include/ini.h:102-106 | trimming cuts exactly the blank ends: the only trimmed middle of a text is what trim leaves |
| IniMap.INIMap.constructor | 3rd/include/ini.h:157 | a new map is empty and its index is exact |
| IniMap.INIMap.SetEmpty | 3rd/include/ini.h:146-152 | a new key is appended at the end with the default value, at the position that is returned |
| IniMap.INIMap.Index | 3rd/include/ini.h:163-173 | operator[] finds the trimmed, lower-case key or appends it, keeps the index a bijection, and returns where a linear search finds it |
| IniMap.INIMap.GetValue | 3rd/include/ini.h:174-186 | get agrees with a linear search and gives the default for an absent key |
| IniMap.INIMap.HasKey | 3rd/include/ini.h:187-194 | has agrees with a linear search |
| IniMap.INIMap.Set | 3rd/include/ini.h:195-211 | set replaces the value in place or appends the key, and nothing else changes |
| IniMap.INIMap.SetAll | 3rd/include/ini.h:212-220 | setting several pairs is setting them one by one, in order |
| IniMap.INIMap.ShiftAfter | 3rd/include/ini.h:232-239 | exactly the positions behind the erased one move down by one |
| IniMap.INIMap.Remove | 3rd/include/ini.h:221-244 | remove takes the item out, keeps the order of the others and an exact index, and reports whether the key was there |
| IniMap.INIMap.Clear | 3rd/include/ini.h:245-249 | clear leaves an empty list with an exact index |
| IniMap.PutView | 3rd/include/ini.h:195-211 | seen as a map, setting binds one key and leaves the others alone |
| IniMap.WithoutView | 3rd/include/ini.h:221-244 | seen as a map, removing unbinds one key and leaves the others alone |
| IniMap.ShiftedIndexIsValid | 3rd/include/ini.h:229-239 | moving the later indices down after an erase gives exactly the index of the shorter list |
| IniMap.SameName | 3rd/include/ini.h:102-113 | two names are one key exactly when they differ only in blanks around them and in the case of letters |
| IniParser.Replace | 3rd/include/ini.h:115-126 | the search-and-replace loop replaces the occurrences from left to right without looking at what it inserted |
| IniParser.SeparatorIs | 3rd/include/ini.h:302-305 | the separator of an entry is the first '=' that is not escaped, or there is none |
| IniEntry.UnescapeEscape | 3rd/include/ini.h:309-310 | unescaping undoes the escaping of '=' for every key, whatever backslashes it holds |
| IniEntry.ParsedIsReadable | 3rd/include/ini.h:273-318 | whatever is read from any line is trimmed and of the readable form |
| IniEntry.EntryRoundTrip | 3rd/include/ini.h:300-314 | a printed entry parses back to its key and trimmed value exactly when EntryOk holds |
| IniEntry.SwallowedSeparator | 3rd/include/ini.h:303-310 | a key that ends in a backslash swallows the separator printed after it |
| IniEntry.BackslashKeyIsLost | 3rd/include/ini.h:303-310 | the key a\ with value b is not read back from its plain line |
| IniEntry.SectionRoundTrip | 3rd/include/ini.h:287-301 | a printed section header reads back exactly when the name holds no ';' |
| IniReader.ReadFile | 3rd/include/ini.h:333-379 | the loop over the bytes splits the contents behind an optional byte order mark into lines without NUL and carriage return |
| IniReader.SplitOfJoin | 3rd/include/ini.h:357-378 | clean lines joined by line ends split into just those lines |
| IniReader.SplitLinesAreClean | 3rd/include/ini.h:357-378 | no line from a file holds a line end, NUL or carriage return |
| IniReader.Assign | 3rd/include/ini.h:413-415 | data[section][key] = value changes that entry only |
| IniReader.ReadOne | 3rd/include/ini.h:404-418 | one line: a header creates its section, an entry below a header is set, everything else changes nothing |
| IniReader.ReadStructure | 3rd/include/ini.h:394-428 | the reading loop fills the map with the structure of the lines and keeps the lines it should |
| IniReader.ReadLinesOk | 3rd/include/ini.h:394-428 | what is read has no section or key twice |
| IniReader.KeptLinesReadAlike | 3rd/include/ini.h:417-424 | the lines that are not kept make no difference to what is read |
| IniGenerator.WriteEntries | 3rd/include/ini.h:470-488 | the inner loop writes one line for each entry, line ends between them |
| IniGenerator.WriteSection | 3rd/include/ini.h:461-489 | a header and its entries, with no line end behind |
| IniGenerator.Generate | 3rd/include/ini.h:449-500 | the outer loop writes the sections in order, and a blank line between them when pretty |
| IniGenerator.ReadIsDenotable | 3rd/include/ini.h:394-428 | whatever file is read, its names and entries are denotable |
| IniGenerator.GenerableReadsBack | 3rd/include/ini.h:449-500 | a generable structure reads back with its sections and keys in order and its values trimmed, pretty or plain |
| IniGenerator.GenerateRoundTrip | 3rd/include/ini.h:449-500 | a structure reads back from what was generated for it if and only if it is generable |
| IniGenerator.BackslashStructureIsLost | 3rd/include/ini.h:449-500 | the key a\ with value b does not come back from a plain file |
| IniLayout.EntryLayout | 3rd/include/ini.h:470-488 | a key without '=' is written as it is, with '=' or ' = ' and the value behind it |
| IniLayout.EscapedLayout | 3rd/include/ini.h:470-478 | every '=' in a key gets a backslash |
| IniLayout.BlockLayout | 3rd/include/ini.h:455-490 | a section is its header and one line for each entry, in order |
| IniLayout.SectionsLayout | 3rd/include/ini.h:449-500 | sections follow each other, and a pretty file has one blank line between two of them and none anywhere else |
| IniLayout.RewriteLayout | 3rd/include/ini.h:566-586 | a line whose value is replaced stays as it is up to the old value, and gets a blank behind '=' only when it is to be pretty and has none |
| IniWriter.RewriteValue | 3rd/include/ini.h:572-586 | the rewritten line keeps the old text up to where the old value is taken to start, and then has the new value |
| IniWriter.LinesToAdd | 3rd/include/ini.h:606-625 | the new lines of a section are those of its keys that the original lacks, in order |
| IniWriter.InsertNewKeys | 3rd/include/ini.h:606-633 | new lines go right behind the last written line of the section |
| IniWriter.TakeLine | 3rd/include/ini.h:525-602 | the branches of the loop body for one line: which lines are kept, changed and dropped, and where new keys will go |
| IniWriter.AppendNewSections | 3rd/include/ini.h:641-664 | sections that the original lacks come at the end, with a blank line before them when pretty and there is none |
| IniWriter.GetLazyOutput | 3rd/include/ini.h:511-666 | the loop with the iterator that steps back ends, never leaves the lines, visits every line once and headers at most three times, and computes a pass that never steps back |
| IniBlocks.PartsAreTheFile | 3rd/include/ini.h:521-549 | every header of a file starts a part, and the parts together are the file |
| IniBlocks.MergedIsParts | 3rd/include/ini.h:511-640 | the merged lines of every file and job are those in front of the first header and then part by part: of a section in the data the header, the entries that stay with their new values, the new keys behind the last of these, and the comments and blank lines behind; of any other its comments and blank lines without the first empty one |
| IniBlocks.NewKeysStand | 3rd/include/ini.h:542-632 | the new lines of an old section stand directly behind its header or one of its entries, and between them and the next header there are only comments and blank lines of the old file, in order |
| IniBlocks.LazyOutputIs | 3rd/include/ini.h:640-666 | behind the merged lines the new sections follow in the order of the data, each with a blank line in front when it is to be pretty and there is none |
| IniMeaning.MeaningIsRead | 3rd/include/ini.h:394-428 | the structure that is read is the meaning of the lines as nested maps |
| IniRewrite.RewriteRoundTrip | 3rd/include/ini.h:572-586 | a rewritten entry line keeps its key, and has the new value exactly when the old one did not start with an escaped '=' |
| IniRewrite.EscapedValueStays | 3rd/include/ini.h:572-586 | a value that is an escaped '=' followed by b cannot be changed to c in place |
| IniRewrite.SkipsEscape | 3rd/include/ini.h:574-579 | the search for the old value skips more than blanks exactly when that value starts with an escaped '=' |
| IniRewrite.RewriteSame | 3rd/include/ini.h:572-586 | a rewritten line is the old one exactly when the new value already stands where the old one is taken to start |
| IniRewrite.ReplacedSame | 3rd/include/ini.h:565-586 | a line with a value to set stays as it is exactly when it has that value, or starts with an escaped '=' and has the value behind it |
| IniLazy.LineTracks | 3rd/include/ini.h:521-602 | the invariant of the merge: what was written means what both files have of the lines so far, after every line |
| IniLazy.MergedMeaning | 3rd/include/ini.h:521-640 | the merged lines mean the sections of both files with the keys of the new data |
| IniLazy.LazyMeaning | 3rd/include/ini.h:511-666 | when the added lines are understood, the output has the sections and keys of the data, and each value is the new one unless an old value with an escaped '=' in front was changed |
| IniLazyExact.LazyPreserves | 3rd/include/ini.h:511-666 | reading the output of the lazy writer gives the data with trimmed values if and only if the data is preservable, whatever was added, changed or removed |
| IniLazyExact.EscapedValueIsKept | 3rd/include/ini.h:511-666 | a file whose value is an escaped '=' followed by b does not come back with c |
| IniComments.CommentsStay | 3rd/include/ini.h:511-666 | whatever is written over whatever lines, the comments of the old lines are among those of the output, in order |
| IniComments.CommentsKept | 3rd/include/ini.h:525-602 | the comments of the output are those of the old lines in order, if and only if no new key looks like a comment |
| IniComments.NewKeyBecomesComment | 3rd/include/ini.h:606-625 | a new key ;a is written as a comment |
| IniUnchanged.RewriteOfUnchanged | 3rd/include/ini.h:511-666 | writing back what was read gives the old lines with repeated keys brought to their last value |
| IniUnchanged.UnchangedFile | 3rd/include/ini.h:511-666 | writing back what was read gives exactly the old lines if and only if every entry line keeps its text when its key gets its final value |
| IniUnchanged.SettledStays | 3rd/include/ini.h:565-586 | entry lines that have the final value keep their text, and without values that start with an escaped '=' only those do |
| IniUnchanged.UnrepeatedFile | 3rd/include/ini.h:511-666 | getLazyOutput, which is given the lines that the reader keeps, leaves every line as it is when no section repeats a key |
| IniUnchanged.RepeatedKeyIsChanged | 3rd/include/ini.h:511-666 | a section with a=1 and a=2 is not written back as it was |
| IniOrder.ReadNames | 3rd/include/ini.h:394-428 | the sections that are read stand in the order of their first headers |
| IniOrder.SectionsKeepOrder | 3rd/include/ini.h:511-666 | after a lazy write the sections of file and data stand in the order of the file, and the new ones follow in the order of the data |
| IniKeyOrder.ReadKeys | 3rd/include/ini.h:394-428 | the keys of a section that are read stand in the order of their first entries |
| IniKeyOrder.KeysKeepOrder | 3rd/include/ini.h:511-666 | after a lazy write the keys of a section stand in this order: the old ones of its first block, the new ones in the order of the data, then the old ones of later blocks, for every file |
| IniKeyOrder.KeysOfOneBlock | 3rd/include/ini.h:511-666 | when no header is repeated, the old keys of a section stand in the order of the file and the new ones follow in the order of the data |
| IniFile.WriteLines | 3rd/include/ini.h:713-726 | the loop writes the lines with line ends between them and none behind |
| IniFile.WriteExisting | 3rd/include/ini.h:684-729 | the new text of an existing file is the merge of its kept lines, and the byte order mark is kept exactly when it was there |
| IniFile.FileTextReadsBack | 3rd/include/ini.h:702-726 | lines that were written mean the same when the file is read |
| IniFile.WriteThenRead | 3rd/include/ini.h:676-731 | for every old contents and every structure, read after write gives the data with trimmed values if and only if the data holds no line ends, NUL and carriage returns and is preservable |
| IniFile.LineEndIsLost | 3rd/include/ini.h:676-731 | a value of two lines does not come back, whatever the file was |
| IniFileUnchanged.JoinOfSplit | 3rd/include/ini.h:357-378 | a text without NULs and carriage returns is its lines with line ends between them |
| IniFileUnchanged.UnchangedContents | 3rd/include/ini.h:676-731 | writing the names and entries of a file back leaves every byte as it is if and only if nothing is dropped from it: no NUL, no carriage return, no line, and no text of an entry line |
| IniFileUnchanged.UnrepeatedContents | 3rd/include/ini.h:676-731 | a file that repeats no key in a section stays as it is if and only if it holds no NUL and no carriage return and the reader keeps all of its lines |
| IniFileUnchanged.UnknownLineIsLost | 3rd/include/ini.h:417-424 | the file [s] with a second line foo is not written back as it was |
| CliEscape.AddEscapedCharacters | 3rd/include/CLI11.hpp:876-888 | the loop puts a backslash and a letter for each of the seven characters |
| CliEscape.AccumulateHex | 3rd/include/CLI11.hpp:944-977 | the accumulated 32-bit code is the positional value of the digits and never wraps around, and a digit that is none is an error |
| CliEscape.BitsAreDisjoint | 3rd/include/CLI11.hpp:907-929 | the bit operations of append_codepoint are sums and remainders, since the joined bits never overlap |
| CliEscape.DecodeOfEncode | 3rd/include/CLI11.hpp:907-929 | decoding what was appended for scalar values by the rules of section 3 of RFC 3629 gives them back |
| CliEscape.EncodeOfDecode | 3rd/include/CLI11.hpp:907-929 | every well-formed text is the encoding of the scalar values it decodes to |
| CliEscape.RemoveOne | 3rd/include/CLI11.hpp:934-985 | each kind of escape at the current position with its length, and every malformed one is an error |
| CliEscape.RemoveEscapedCharacters | 3rd/include/CLI11.hpp:931-989 | the unescaping loop, from front to end |
| CliEscape.RemoveOfAdd | 3rd/include/CLI11.hpp:876-989 | unescaping undoes escaping for every string |
| CliEscape.EscapesBecomeUtf8 | 3rd/include/CLI11.hpp:959-977 | Unicode escapes of scalar values turn into their UTF-8 encoding |
| CliUnits.DigitIs | 3rd/include/CLI11.hpp:891-905 | hexConvert gives just the hexadecimal digits of either case their values |
| CliUnits.UnitsAreRead | 3rd/include/CLI11.hpp:931-989 | every text of plain characters, short escapes and codes of 4 or 8 digits is accepted and stands for what its parts stand for |
| CliUnits.OnlyUnitsAreRead | 3rd/include/CLI11.hpp:931-989 | no other text is accepted: each malformed escape is an error |
| CliBinary.EscapeBytes | 3rd/include/CLI11.hpp:1109-1131 | the loop over the bytes with its flag for a backslash before |
| CliBinary.EscapeQuotes | 3rd/include/CLI11.hpp:1132-1146 | the loop that looks for single quotes replaces every one of them and ends |
| CliBinary.BinaryEscapeString | 3rd/include/CLI11.hpp:1109-1149 | a string that needs no escaping stays, any other is wrapped |
| CliBinary.EscapeBeforeTail | 3rd/include/CLI11.hpp:1177-1182 | an escape never reaches into the closing characters: the index stays before the tail |
| CliBinary.ExtractBinaryString | 3rd/include/CLI11.hpp:1159-1196 | the decoding loop, whose index never passes the tail |
| CliBinary.BinaryRoundTrip | 3rd/include/CLI11.hpp:1109-1196 | extracting gives a byte string back if and only if it needs escaping or does not look escaped already |
| CliBinary.BinaryFormIsLost | 3rd/include/CLI11.hpp:1151-1157 | a printable string of the escaped form is not given back |
| CliUnits.ByteIsRead | 3rd/include/CLI11.hpp:1174-1190 | a byte is read from two hexadecimal digits and an x in either case |
| CliUnits.FormsDecodeAlike | 3rd/include/CLI11.hpp:1159-1196 | both wrapped forms of a text are decoded alike |
| CliBrackets.CloseStringQuote | 3rd/include/CLI11.hpp:991-1003 | the end of a quoted run, where a backslash hides the next character |
| CliBrackets.CloseBracket | 3rd/include/CLI11.hpp:1021-1055 | the loop over the stack of closers finds where the nested text of a bracket ends, quoted runs taken whole, or the length |
| CliBrackets.CloseSequence | 3rd/include/CLI11.hpp:1010-1055 | each kind of bracket and quote ends where its own reading of the text ends, or at the length |
| CliBrackets.SequenceEndStays | 3rd/include/CLI11.hpp:1010-1055 | where a quote or bracket ends does not depend on what stands behind its end |
| CliNested.BracketIsFound | 3rd/include/CLI11.hpp:1010-1055 | in every text the bracket that ends a well-formed piece is found, however deep brackets and quotes are nested in it and whatever stands around it |
| CliNested.OpenBracketReachesEnd | 3rd/include/CLI11.hpp:1021-1055 | a bracket that is never closed reaches to the end of the text |
| CliBrackets.OneToken | 3rd/include/CLI11.hpp:1065-1092 | one round of split_up takes a token and leaves a shorter rest |
| CliBrackets.SplitUpText | 3rd/include/CLI11.hpp:1057-1095 | split_up ends and gives the tokens |
| CliBrackets.TokensFit | 3rd/include/CLI11.hpp:1057-1095 | all tokens together, with one character between two of them, are no longer than the input |
| CliConfigValue.IniJoin | 3rd/include/CLI11.hpp:10574-10600 | a list is printed as its converted values with commas, in brackets when there are several |
| CliConfigValue.HandleSecondaryArray | 3rd/include/CLI11.hpp:1210-1220 | text that looks like an array gets its characters doubled |
| CliConfigValue.ProcessQuotedString | 3rd/include/CLI11.hpp:1222-1247 | quotes of each kind come off only when they stand at both ends, escapes are resolved between double quotes only, and array text is doubled |
| CliConfigValue.Unescape | 3rd/include/CLI11.hpp:6625-6646 | the escape clause for doubled text |
| CliConfigValue.AddFields | 3rd/include/CLI11.hpp:6665-6671 | the non-empty fields at the delimiter, and their number |
| CliConfigValue.AddResult | 3rd/include/CLI11.hpp:6622-6680 | ends on arbitrarily nested array text, appends to the results, and returns how many it appended |
| CliConfigValue.OneResult | 3rd/include/CLI11.hpp:6622-6680 | every string comes back as exactly one result from the form that handle_secondary_array gives it, unless the delimiter of the option takes it apart, and the results are then shorter than it |
| CliConfigRoundTrip.ConvertIsToken | 3rd/include/CLI11.hpp:10515-10571 | every printed value has one of three shapes, for any notion of a number |
| CliConfigRoundTrip.TokenIsTaken | 3rd/include/CLI11.hpp:1057-1095 | split_up takes a printed value as one token |
| CliConfigRoundTrip.TokensOfJoined | 3rd/include/CLI11.hpp:1057-1095 | split_up at commas undoes ini_join |
| CliConfigRoundTrip.ArrayEnds | 3rd/include/CLI11.hpp:1010-1055 | the bracket of a printed array closes behind its last value |
| CliConfigRoundTrip.TokenReadBack | 3rd/include/CLI11.hpp:1222-1247 | taking off the quotes of a printed value gives the value in the form of one result |
| CliConfigRoundTrip.ReadTokensBack | 3rd/include/CLI11.hpp:6622-6680 | the tokens printed for a list give the list, or results of less length in all when the delimiter of the option takes one apart |
| CliConfigRoundTrip.TakeTokens | 3rd/include/CLI11.hpp:10905-10915 | each token loses its quotes and adds its results for an option with any delimiter, in order, and the first malformed one is an error |
| CliConfigRoundTrip.OneLineRoundTrip | 3rd/include/CLI11.hpp:10574-10600 | a list that needs no triple quotes is printed without a line end and reads back as the same list exactly when it is not empty and the option takes no text in it apart at its delimiter, for any notion of a number and any option |
| CliConfigRoundTrip.EmptyListIsLost | 3rd/include/CLI11.hpp:10574-10600 | an empty list reads back as one empty string |
| CliConfigLines.TakeLine | 3rd/include/CLI11.hpp:10840-10885 | one more line of a value between triple quotes: whether it closes the text, and what it adds, with or without a line end |
| CliConfigLines.ReadQuoted | 3rd/include/CLI11.hpp:10814-10887 | the loop over the lines of a value between triple quotes, from whatever text the untrimmed line has behind the position of '=': where it ends, where it goes on without a line end, and what is unescaped |
| CliConfigLines.ReadItems | 3rd/include/CLI11.hpp:10806-10899 | the items of a value from its untrimmed line, the position of '=' in the trimmed one, and the lines that follow: triple quotes, arrays that go on, a comment, lists and single values |
| CliConfigLines.MoreTextBack | 3rd/include/CLI11.hpp:10834-10886 | behind the first line a text never gets longer, and comes back exactly when no line goes on or closes the quotes and the last is not empty |
| CliConfigLines.QuotedTextBack | 3rd/include/CLI11.hpp:10814-10887 | a text between triple quotes comes back exactly when its lines stay, whatever lines follow it |
| CliConfigLines.AddedShort | 3rd/include/CLI11.hpp:6622-6680 | for every option every result is shorter than its text, unless the text is the one result |
| CliConfigLines.OneTokenBack | 3rd/include/CLI11.hpp:10905-10915 | the results of one token are its own text exactly when it is not quoted, not doubled, not an array that is taken apart and without the delimiter of the option, and are shorter otherwise |
| CliConfigLines.ConfigRoundTrip | 3rd/include/CLI11.hpp:10574-10600 | every list that ini_join prints comes back from the lines of a file behind a name and '=' that start their line, whatever follows and for every option, if and only if it is not empty, the option takes no text in it apart, and it is not a single text that triple quotes do not preserve |
| CliConfigLines.DelimiterIsLost | 3rd/include/CLI11.hpp:6665-6671 | a list with the text a,b does not come back for an option with the delimiter ',' |
| CliConfigLines.LastLineEndIsLost | 3rd/include/CLI11.hpp:10515-10571 | a long text that ends in a line end does not come back |
| CliConfigTexts.EscapedTextBack | 3rd/include/CLI11.hpp:10825-10837 | between triple double quotes every text is read from its escaped form |
| CliConfigTexts.LineGoesOn | 3rd/include/CLI11.hpp:10816-10886 | between triple quotes a line that ends in a backslash and the next one are read as one line, without the blanks around the second |
| CliConfigTexts.FieldsBack | 3rd/include/CLI11.hpp:6665-6671 | an option with a delimiter gets just the texts that are not empty, however many delimiters stand between and around them |
| CliConfigTexts.PrefixedNumbers | 3rd/include/CLI11.hpp:10544-10560 | octal and binary numbers are printed without quotes exactly when all their digits are of that base |
| CliConfigEntry.CleanNameString | 3rd/include/CLI11.hpp:10962-10977 | a name with special characters is put between single quotes, or, when it holds one, between double quotes with its escapes |
| CliConfigEntry.FindDelimiter | 3rd/include/CLI11.hpp:10780-10799 | the search that passes over quotes ends, and finds '=' and '#' as described, with the wrap-around of its position at the front |
| CliConfigEntry.ReadConfigLine | 3rd/include/CLI11.hpp:10775-10915 | a line that is no comment and no header: its name with its parents, and its results or that of a flag |
| CliConfigEntry.QuotedNameFound | 3rd/include/CLI11.hpp:10780-10799 | the '=' behind a quoted name is found whatever the name and the value hold |
| CliConfigEntry.NameFound | 3rd/include/CLI11.hpp:10780-10799 | behind a printed name and blanks '=' is found, and a comment sign exactly when there is one behind it |
| CliConfigEntry.NameRead | 3rd/include/CLI11.hpp:10962-10977 | a valid name comes back from its printed form if and only if NameComesBack holds |
| CliConfigEntry.EntryRoundTrip | 3rd/include/CLI11.hpp:11070-11076 | a printed line name=value, with the lines of its value, reads back as that name and that list, whatever follows, if and only if both come back |
| CliConfigEntry.BracketNameIsLost | 3rd/include/CLI11.hpp:10962-10977 | an option named [a] does not come back from its printed line |
| CliConfigEntry.IndentedValue | 3rd/include/CLI11.hpp:10814-10818 | blanks in front of a line change nothing of a value without triple quotes, and always change the text of one between single ones that is closed on its line |
| CliConfigNotes.CommentComesOff | 3rd/include/CLI11.hpp:10809-10812 | a comment comes off a value and leaves it as it was exactly when the value is one piece |
| CliConfigNotes.TailMakesNoDifference | 3rd/include/CLI11.hpp:10780-10899 | whatever is dropped behind a value that is one piece, the line is read as the same entry, for every name, option and lines that follow |
| CliConfigNotes.NoteMakesNoDifference | 3rd/include/CLI11.hpp:10780-10899 | name = value # note is read as the same entry as name = value: for every value without a comment sign, and for one in quotes or brackets with the comment behind its closing character |
| CliConfigNotes.ListBehindIsLost | 3rd/include/CLI11.hpp:10809-10812 | with a comment behind it a list in quotes is read as its first item |
| CliConfigNotes.FlagLine | 3rd/include/CLI11.hpp:10796-10903 | a name without a value is a flag, also with a comment behind it and whatever that holds |
| CliConfigLists.TokensOfStrung | 3rd/include/CLI11.hpp:1057-1095 | split_up finds printed values again behind any separator in use |
| CliConfigLists.BareListAsPrinted | 3rd/include/CLI11.hpp:10894-10899 | a list without brackets, at commas or at blanks, is read as the entry of the list with brackets |
| CliConfigLists.BareListStays | 3rd/include/CLI11.hpp:10809-10812 | a comment sign in the line leaves a list without brackets as it is exactly when the list holds none |
| CliConfigLists.ArrayOverLines | 3rd/include/CLI11.hpp:10884-10893 | an array over several lines is read as the same array on one line, whatever follows |
| CliConfigLists.BracketAloneIsText | 3rd/include/CLI11.hpp:10884-10893 | an opening bracket alone on its line is read as a text |
| CliDotted.DottedEntry | 3rd/include/CLI11.hpp:10603-10625 | a name with dots is read like its last part alone, with the parts in front as its parents, for every path of names that are whole |
| CliSections.CommonUpTo | 3rd/include/CLI11.hpp:10645-10654 | how far two paths agree |
| CliSections.CheckParentSegments | 3rd/include/CLI11.hpp:10627-10674 | closes just the segments that the new path does not share and opens the others |
| CliSections.HeaderHasPath | 3rd/include/CLI11.hpp:10757-10765 | whatever header line a file has, single or double brackets, its path has a segment |
| CliHeaders.HeaderRoundTrip | 3rd/include/CLI11.hpp:11107-11130 | the header printed for nested names is read as the path of these names if and only if PathComesBack holds |
| CliHeaders.DoubleBrackets | 3rd/include/CLI11.hpp:10757-10760 | a header in double brackets is read like one in single ones |
| CliHeaders.OpenBracketIsLost | 3rd/include/CLI11.hpp:1057-1095 | of nested names the first one (a does not come back from the header |
| CliSections.TakeLine | 3rd/include/CLI11.hpp:10749-10766 | a header closes what it does not share with the section before, also across a [default] header, and opens the rest; an entry given twice in a row gets more inputs |
| CliSections.FromConfig | 3rd/include/CLI11.hpp:10707-10960 | the loop over headers and entries gives their events with all inputs, and closes what is current at the end |
| CliSections.EventsWellNested | 3rd/include/CLI11.hpp:10627-10674 | every "++" extends the open path by one segment, every "--" closes its top, entries (none of them named "++" or "--") are under it, and nothing is open at the end, if and only if no [default] header strands a section of several segments |
| CliSections.NoDefaultNoStrand | 3rd/include/CLI11.hpp:10749-10766 | a file without [default] headers strands nothing, so that its events are well nested |
| CliSections.BrokenStays | 3rd/include/CLI11.hpp:10749-10766 | what is out of place once stays so whatever lines follow |
| CliSections.DefaultLeavesOpen | 3rd/include/CLI11.hpp:10749-10766 | [a.b] and [default] leave the section a open |
| CliSections.OpenAfterHeader | 3rd/include/CLI11.hpp:10749-10766 | after a header exactly its path is open, if and only if no entry was stranded before it |
| CliSections.ChangeIsShortest | 3rd/include/CLI11.hpp:10627-10674 | no shorter list of events leads from one section to the next |
| CliInputs.InputsOfFile | 3rd/include/CLI11.hpp:10930-10946 | over whole files each kept entry line is in one entry with its parents and name, in the order of the file, each run of lines of the same entry that no section event interrupts is one entry with all their inputs in order, and a separator stands exactly between two lists of several |
| CliInputs.OnlyMarksAdded | 3rd/include/CLI11.hpp:10930-10941 | without the separators the inputs of an entry are those of its lines, one list behind the other |
| CliNumbers.OverflowIsExact | 3rd/include/CLI11.hpp:4200-4211 | the division test is true exactly when the product is out of range, signed and unsigned |
| CliNumbers.MinimumOverflows | 3rd/include/CLI11.hpp:4219-4221 | a factor that is the least signed value always overflows past 0 and 1 |
| CliNumbers.CheckedMultiply | 3rd/include/CLI11.hpp:4214-4227 | true exactly when the product is representable, which is then stored, and the operand stays otherwise |
| CliNumbers.ExaFits | 3rd/include/CLI11.hpp:4913-4929 | the factors up to the exa units fit into 64 bits |
| CliNumbers.InitMapping | 3rd/include/CLI11.hpp:4913-4929 | exactly the units have a factor, the power of 1000 or 1024 that they stand for |
| CliNumbers.SizeWithUnit | 3rd/include/CLI11.hpp:4510-4557 | a number with a unit, or one of the two, is the exact product in 64 bits or an error |
| CliNumbers.AsSize | 3rd/include/CLI11.hpp:4490-4557 | a text is taken apart into a number and the letters behind it, and means their size in 64 bits or an error |
| CliNumbers.WrittenSize | 3rd/include/CLI11.hpp:4490-4557 | a number, blanks and a unit in any case mean their product exactly when it fits |
| CliNumbers.BareSizes | 3rd/include/CLI11.hpp:4490-4557 | a number alone is its own size, a unit alone its factor, and nothing is an error |
| CliNumbers.UnitTable | 3rd/include/CLI11.hpp:4913-4929 | the prefixes stand for the powers of 1000 and 1024 of their names |
| CliAppSpec.RecognizedSplits | 3rd/include/CLI11.hpp:9175-9208 | an argument that is recognised as an option splits as one, so that the internal error of _parse_arg is never raised |
| CliAppSpec.ArgShrinks | 3rd/include/CLI11.hpp:9971-10204 | an option makes the arguments shorter, also when the letters behind a flag go back to them |
| CliAppSpec.SingleShrinks | 3rd/include/CLI11.hpp:9732-9772 | total length and number of the arguments decrease strictly in every step |
| CliAppSpec.Run | 3rd/include/CLI11.hpp:9550-9559 | the whole loop ends, with no arguments left or with an error |
| CliAppSpec.FirstOpen | 3rd/include/CLI11.hpp:9824-9840 | the positional that is chosen is the first one that can take the text |
| CliAppSpec.FindName | 3rd/include/CLI11.hpp:10001-10008 | the option that is chosen is the first one that answers to the name |
| CliApp.App.Add | 3rd/include/CLI11.hpp:6394-6398 | the results of one option grow by those of a text, whose number is returned, and the order list names the option |
| CliApp.App.CountRemainingPositionals | 3rd/include/CLI11.hpp:9774-9784 | the items that required positionals still need |
| CliApp.App.ParsePositional | 3rd/include/CLI11.hpp:9796-9911 | the first open positional, or a required one when the arguments only just suffice, gets the argument; otherwise it is missing, or an error when positionals come last; the fields stay in step with the events |
| CliApp.App.GatherMinimum | 3rd/include/CLI11.hpp:10144-10150 | stops as soon as the least number of items is there or no argument is left, and takes from the top only |
| CliApp.App.GatherFurther | 3rd/include/CLI11.hpp:10156-10178 | stops at the most items, at an argument that looks like an option, at a refused one, or when only as many are left as required positionals need |
| CliApp.App.ParseArg | 3rd/include/CLI11.hpp:9971-10204 | one option with all its items and errors, as the description that ArgKeepsOrigin and ItemsPerName are about; the fields stay in step with the events |
| CliApp.App.ParseSingle | 3rd/include/CLI11.hpp:9732-9772 | one argument by its class, as the description that SingleShrinks is about |
| CliApp.App.Parse | 3rd/include/CLI11.hpp:9550-9559 | the loop over the arguments ends; afterwards results, order and missing arguments are exactly what the events of the run make of them |
| CliAppRuns.ArgKeepsOrigin | 3rd/include/CLI11.hpp:9971-10204 | undoing the events of one option gives the arguments before it |
| CliAppRuns.ArgumentsAccounted | 3rd/include/CLI11.hpp:9550-9559 | from every state, undoing the events of a run gives back exactly the arguments it had, in order: each one named an option, became a value of one option, is missing, or was the dropped "--" |
| CliAppRuns.RunAccounted | 3rd/include/CLI11.hpp:9550-9559 | the events of a whole run lead back to the command line |
| CliAppRuns.PlainResults | 3rd/include/CLI11.hpp:6622-6680 | for an option without delimiter and array texts the results are its arguments, one for each, in order |
| CliAppRuns.ItemsPerName | 3rd/include/CLI11.hpp:10114-10200 | an option that is named gets at least its least number of items, in whole groups or filled up by one empty text; at least one, and at most its greatest number without extra arguments, when its texts are single results; no other option gets any |
| CliAppForms.FormsComeApart | 3rd/include/CLI11.hpp:3487-3525 | split_long, split_short and split_windows_style take exactly the forms --name, --name=value, -c with what follows, /name and /name:value, and take them apart into name, value and rest |
| CliAppForms.PrintedComesApart | 3rd/include/CLI11.hpp:3496-3509 | name and value are read from --name=value exactly when the name holds no '=' and may start a name |
| CliAppForms.ClassesOf | 3rd/include/CLI11.hpp:9175-9208 | what an argument is recognised as: a digit behind a dash starts a name exactly when some option has that name |
| CliAppForms.AddressedNames | 3rd/include/CLI11.hpp:10001-10038 | the option that an argument is taken to name, and the way it comes apart, are the only ones that its form allows |
| CliAppBlocks.OptionTakes | 3rd/include/CLI11.hpp:10100-10204 | an option that is named gets a separator, the text with its name or its flag value, the least arguments and no more, further ones as long as there is room and none that required positionals need, its own value when it has none, and gives letters back; or the run stops because a value is refused, arguments are missing or the last group is not complete |
| CliAppSteps.SlotIsFirst | 3rd/include/CLI11.hpp:9796-9840 | the positional for an argument is the first open one, or the first required one when positionals come last and no argument is to spare |
| CliAppSteps.RunExplained | 3rd/include/CLI11.hpp:9550-9772 | every run is a sequence of such steps that uses up all arguments, or one that ends where it has to stop |
| CliAppSteps.SuppliedFromNames | 3rd/include/CLI11.hpp:10132-10186 | in every run each text that is no argument of its own is what stands behind the last name before it in the same argument, or the value that the option has for it |
| CliAppSteps.OnlyPositionalsFollow | 3rd/include/CLI11.hpp:9732-9772 | behind the mark, or with positionals at the end behind the first of them, no argument names an option |
| CliAppSteps.RequiredFilled | 3rd/include/CLI11.hpp:9796-9822 | with positionals at the end and enough arguments from the first of them on, a run that is not stopped gives every required positional all its items |
| CliAppSteps.NumbersAre | 3rd/include/CLI11.hpp:10114-10121 | the least and greatest numbers of items of an option |
| CliAppSteps.RoomForPositionals | 3rd/include/CLI11.hpp:9824-9840 | a positional takes an argument only while it has room, and an argument is left over only when none has |
| CliAppSteps.ArraysAreTaken | 3rd/include/CLI11.hpp:6648-6662 | an array is taken apart by just those options that take extra arguments or several groups |
| CliAppPrinted.WrittenOptionsParse | 3rd/include/CLI11.hpp:9550-9559 | a command line written from settings in any mixture of --name=value, --name value, -cvalue, -c value and Windows style gives every option just its value, in order |
| CxxInteger.TestsAreExact | 3rd/include/cxxopts.hpp:990-999 | the two tests before a digit is added are exact for every limit that a type can have other than 0, whatever the width |
| CxxInteger.AddDigit | 3rd/include/cxxopts.hpp:960-1002 | one round of the loop keeps the result within the limit and refuses only what exceeds it |
| CxxInteger.NegatedIs | 3rd/include/cxxopts.hpp:930-938 | the negation by way of t - 1 is exact, for 0 and the minimum too |
| CxxInteger.PrefixIsSmaller | 3rd/include/cxxopts.hpp:990-999 | a prefix is worth no more than the whole text, so that refusing at a prefix is sound |
| CxxInteger.IntegerParser | 3rd/include/cxxopts.hpp:947-1015 | accepts a text exactly when its value lies in the range of the type, and returns that value |
| CxxInteger.PrintedIntegerParses | 3rd/include/cxxopts.hpp:947-1015 | every integer of the type comes back from its decimal text |
| CxxInteger.DigitIs | 3rd/include/cxxopts.hpp:962-981 | the digits of the two bases and their values, in either case |
| CxxInteger.HexIntegerParses | 3rd/include/cxxopts.hpp:948-1015 | a hexadecimal text behind 0x, with or without a minus, is read as its number when the type has it |
| CxxInteger.OtherTextsAreRefused | 3rd/include/cxxopts.hpp:775-824 | no letter is read in a decimal text, and 0x alone is none |
| CxxSpec.TakeOneStays | 3rd/include/cxxopts.hpp:2404-2439 | no argument uses up more than the next one, so that the index never passes the end |
| CxxSpec.AllStays | 3rd/include/cxxopts.hpp:2522-2640 | the index is within the arguments after the loop, which its test for inequality relies on |
| CxxParser.OptionParser.ParseOption | 3rd/include/cxxopts.hpp:2388-2402 | one more of an option: its count and the sequential log grow together |
| CxxParser.OptionParser.CheckedParseArg | 3rd/include/cxxopts.hpp:2404-2439 | an option with an implicit value leaves the next argument alone, another takes it or reports it missing; counts and log grow together |
| CxxParser.OptionParser.ConsumePositional | 3rd/include/cxxopts.hpp:2451-2479 | the first slot that is a container or not yet filled takes the argument |
| CxxParser.OptionParser.ParseGroup | 3rd/include/cxxopts.hpp:2558-2602 | the loop over the letters does what GroupParses states, and unknown letters are left over or refused |
| CxxParser.OptionParser.ParseOne | 3rd/include/cxxopts.hpp:2522-2640 | one argument of any kind keeps counts and log in agreement and uses up what TakeOneStays allows |
| CxxParser.OptionParser.ParseDefault | 3rd/include/cxxopts.hpp:2370-2378 | the default is logged and the option stays at count 0 |
| CxxParser.OptionParser.ApplyDefaults | 3rd/include/cxxopts.hpp:2642-2658 | in whatever order the names are visited, the defaults are those of the options that were not given, each once, or one of them is refused |
| CxxParser.OptionParser.ParseRest | 3rd/include/cxxopts.hpp:2660-2675 | after "--" the slots come first and the rest is left over in order |
| CxxParser.OptionParser.EnterNames | 3rd/include/cxxopts.hpp:2689-2692 | all names of an option lead to it |
| CxxParser.OptionParser.FinaliseAliases | 3rd/include/cxxopts.hpp:2683-2698 | every name of every option leads to it, and every option has a value |
| CxxParser.OptionParser.Parse | 3rd/include/cxxopts.hpp:2513-2681 | the result mirrors the log, all names of an option report the same count, counts and sequential log agree, and the defaults are those of the options not given before "--" |
| CxxParser.SumOfCounts | 3rd/include/cxxopts.hpp:2388-2402 | the counts of all options add up to the length of the log |
| CxxParser.KeysCount | 3rd/include/cxxopts.hpp:2388-2402 | the pairs under an essential name are just those of one option |
| CxxParser.BooksOfResult | 3rd/include/cxxopts.hpp:1737-1755 | the books of the result: the sum of the counts is the length of the sequential log, and each count by each name is the number of its pairs there |
| CxxAccount.GroupExplained | 3rd/include/cxxopts.hpp:2558-2602 | every letter of a group is a flag, a leftover, or the option that ends the group with the rest of the letters or the next argument |
| CxxAccount.OneExplained | 3rd/include/cxxopts.hpp:2522-2640 | what one argument adds to the log and to the leftovers is just what its form and the options say |
| CxxAccount.ArgumentsAccounted | 3rd/include/cxxopts.hpp:2513-2681 | of every command line that parses, each argument is in one step in order, apart from the "--" that ends the options, and log and leftovers are those of the steps |
| CxxPositional.SlotTakes | 3rd/include/cxxopts.hpp:2451-2479 | a slot that takes a value keeps all that is known of the slots |
| CxxPositional.PositionalTidy | 3rd/include/cxxopts.hpp:2451-2479 | an argument is refused only when no slot is left, and then for good |
| CxxPositional.PositionalsConserved | 3rd/include/cxxopts.hpp:2513-2681 | without option arguments the values in the log and then the unmatched ones are the arguments in order without the first "--"; slots are used in order, a single-valued one at most once, a container takes all the rest |
| CxxPrinted.PrintedIsTakenApart | 3rd/include/cxxopts.hpp:858-880 | a printed option is taken apart as printed exactly when its value has no line break |
| CxxPrinted.PrintedOptionsParse | 3rd/include/cxxopts.hpp:2513-2681 | a command line of options written as --name=value is logged as just those options in order, with nothing left over |
| CxxPrinted.FlagsTaken | 3rd/include/cxxopts.hpp:2560-2592 | the letters of a group that are flags are logged with their implicit values, in order |
| CxxPrinted.GroupParses | 3rd/include/cxxopts.hpp:2558-2602 | in a group the first option that wants an argument gets the rest of the letters, or the next argument, or reports it missing, after the flags before it |
| CxxForms.FormsAre | 3rd/include/cxxopts.hpp:784-880 | the pattern matches exactly --name, --name=value and a dash with a letter or digit and what follows, without a line break, and takes them apart |
| CxxForms.NamesGoOn | 3rd/include/cxxopts.hpp:784-785 | a name goes on with just letters, digits and the three signs of the pattern |
| CxxForms.LineBreakIsUnmatched | 3rd/include/cxxopts.hpp:784-785 | an argument with a line break is matched by nothing |
| CxxForms.WrittenOptionsParse | 3rd/include/cxxopts.hpp:2513-2681 | a command line of --name=value, --name value, --name, -abc, -abcVALUE and -abc VALUE in any mixture is logged as just those options with just those values, in order, with nothing left over, or a default is refused |
| CxxErrors.OneFailsExactly | 3rd/include/cxxopts.hpp:2522-2640 | one argument is refused exactly when it is at fault in one of the ways described, and with that error |
| CxxErrors.RefusedAt | 3rd/include/cxxopts.hpp:2513-2681 | a command line is refused at one of its arguments behind others that were all accounted for, at a default, or at an argument behind "--" |

## Left out

- File streams, file system checks, environment variables, locales, and the line ends and paths of Windows: files are their contents, and case folding, blanks and printable characters are those of ASCII.
- A failed open or read of an INI file, where the code returns false and writes nothing.
- IniMap.INIMap.Index: the reference that operator[] returns is modelled as the position of the value; the inner maps of a structure are values, so that a reference into one that outlives a change of the outer map is not captured.
- The build of mINI with case-sensitive keys.
- Configurable characters of a configuration file: array brackets, separators, comment and quote characters have their defaults.
- Of a configuration file: comments over several lines, the numbering of repeated sections, a section singled out in advance, and repeated fields kept apart on request.
- CliConfigEntry.EntryRoundTrip: option names only; the prefix of subcommands in front of a name and the comment sign in front of a default are left out.
- CliConfigEntry.ReadConfigLine: the section is [default].
- CliSections.TakeLine: the segments and the name of an entry come as they were parsed. Entries that are themselves named "++" or "--" are entries here.
- CliSections.FromConfig: lines come as headers and entries; how a header line becomes a path is modelled apart, in CliSections.HeaderLine, where an empty segment is left as it is although the code looks at its first character.
- CliNumbers.AsSize: the conversion of a number is a parameter, and the text that a size is printed into is left out.
- CliAppSpec.Run: subcommands, option groups, fallthrough to a parent, dotted notation and options that run on parsing are left out; an App without subcommands and parent never reaches them.
- CliAppSpec.Run: the products of item sizes are taken without the overflow of int that only the least number of items could have.
- The checks after the arguments of an App: requirements, extras, callbacks, configuration files and environment.
- CxxInteger.IntegerParser: the magnitude of the least 64-bit integer is taken as the mathematical one, which std::abs does not define; for the unsigned types a negative limit of 0 makes the tests inexact, but the sign is refused in any case.
- The variants of cxxopts without regular expressions, whose grammar of integers and options differs.
- CxxParser.OptionParser.Parse: option hashes are taken as distinct, and the value object behind an option is the predicate that says which texts convert.
- Conversion of texts to typed values, help texts, text wrapping, messages of errors, and user callbacks.
- backward.hpp, asio.hpp, cinatra.hpp and the example programs, which only call other libraries.
