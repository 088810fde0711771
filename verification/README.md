# Verified model of yosh

A Dafny model of the parts of the yosh shell whose logic needs no system call
to state, with proofs about every input, every run and every reachable state.
`dafny verify dfyconfig.toml` checks all of it.

- **Byte encoding** (`Utf8`, `ByteEnc`): shell strings hold arbitrary bytes by
  escaping those that are not UTF-8. The loops and their fast paths are proved
  against one definition, which is shown lossless.
- **Fields** (`Bits`, `Fields`): a field is bytes with two packed masks and the
  positions of quoted empty strings. The class that writes words of 64 bits is
  proved against a plain sequence of (byte, split, glob) cells.
- **Field splitting** (`Ifs`, `SplitSpec`, `SplitProps`, `Chars`, `FieldSplit`,
  `PieceSpec`, `PieceLaws`): section 2.6.5 of POSIX.1-2024 XCU as a recursive
  reading of a token list; the state machine over packed fields computes it, it
  conserves text, and it never slices inside a character. `PieceSpec` says
  without tokens or machine what a value splits into, by recursion on its bytes,
  and `PieceLaws` what that is under an IFS of one character, of white space,
  and of both.
- **Word expansion** (`Pathname`, `ExpandSpec`, `Expand`, `ScalarProps`,
  `WordProps`, `WordLaws`, `FormLaws`): the pipeline from words to fields to
  strings, on packed fields and a mutable environment, and the proof that none
  of its three shortcuts can be observed. `WordLaws` and `FormLaws` give the
  texts that words come to: quoted and unquoted values, the parameter list, the
  forms of `${…}`.
- **Executor** (`ExecSpec`, `Exec`, `ExecProps`, `ExecLaws`, `CommandLaws`,
  `ErrexitLaws`, `LeavingLaws`): `ExecSpec` evaluates programs with `break`,
  `continue`, `return`, fatal errors and `exit` as values that commands end with;
  `Exec` is the executor with its one pending flag, its exit request and its
  counters, refined against that evaluator method by method: same events,
  status, `$?` and pending flow, counters restored. `ExecProps` shows that more
  fuel than a run needs changes nothing, nor `set -e` where it is ignored. The
  four `Laws` modules say which events programs leave: which commands run, how
  often, in which order, and with which status the whole ends.
- **Pipelines** (`Pipes`): descriptor tables through `pipe`, `fcntl`, `dup2`
  and `fork`, any of which may fail.
- **History** (`HistoryFile`, `HistoryList`): the file format, merging saves,
  numbers, the cursor, and `fc` operands.
- **`getopts`** (`Getopts`, `GetoptsLaws`), **traps** (`Quote`, `Traps`,
  `TrapLaws`), **bracket scanners** (`Scan`) and **`cd` canonicalization** (`Canon`).

What the shell asks of code outside the model (parameter lookup, arithmetic,
command substitution, the file system, the parser, utilities) is a function
passed in: of the environment in word expansion, of everything that happened
before in the executor. The theorems hold for every such function.

## Model

| member | source | states |
|---|---|---|
| `ByteEnc.RoundTrip` | src/byteenc.rs:66-139 | decoding the encoded form of any byte string gives that byte string back |
| `ByteEnc.EncodedInjective` | src/byteenc.rs:66-96 | two byte strings with one encoded form are equal |
| `ByteEnc.DecodedConcat` | src/byteenc.rs:117-139 | decoding a concatenation is concatenating the decodings |
| `ByteEnc.EncodedHighEscapes` | src/byteenc.rs:34-37 | encoding emits an escape character only for a byte at or above 0x80 |
| `ByteEnc.EscapeRange` | src/byteenc.rs:34-48 | the characters set aside are U+10FE00 to U+10FEFF, one for each byte |
| `ByteEnc.TextKept` | src/byteenc.rs:68-73 | valid text without them is its own encoded form |
| `ByteEnc.BytesEscaped` | src/byteenc.rs:75-115 | each byte of no character, and of a character set aside, is one escape |
| `ByteEnc.EncodeBytes` | src/byteenc.rs:68-73 | the borrowed fast path and the loop give one and the same encoded form |
| `ByteEnc.EncodeBytesOwned` | src/byteenc.rs:75-96 | the loop over valid chunks and error spans terminates with the encoded form of the whole input |
| `ByteEnc.PushValidChunk` | src/byteenc.rs:100-115 | a valid chunk is appended with its escape-range characters escaped, by either branch |
| `ByteEnc.ContainsEscapeRangeChar` | src/byteenc.rs:61-63 | true exactly when an escape-range character occurs, although only strings with byte 0xF4 are searched |
| `ByteEnc.NoLeadNoEscapes` | src/byteenc.rs:50-57 | a string without the byte 0xF4 holds no escape-range character |
| `ByteEnc.DecodeBytes` | src/byteenc.rs:119-139 | the fast path for strings without escapes and the chunk loop both give the decoded bytes |
| `ByteEnc.EncodedOfRound` | src/byteenc.rs:75-96 | one round of the loop accounts for a valid chunk, the bytes of the error behind it and the rest |
| `Utf8.FrontOfChar` | src/byteenc.rs:75-96 | a decoder reads each encoded character back whole, whatever follows (RFC 3629 section 4) |
| `Utf8.EncodeFront` | src/byteenc.rs:75-96 | re-encoding the character read from the front gives the bytes it was read from |
| `Utf8.FromUtf8OfString` | src/byteenc.rs:68-96 | the bytes of a string validate as exactly that string |
| `Ifs.UnitsPartition` | src/byteenc.rs:160-177 | the units of a byte string concatenate to it, each a single byte or one whole character |
| `Ifs.UnitLenIsFront` | src/byteenc.rs:141-158 | the unit length is that of the character at the front where one stands, and 1 elsewhere |
| `Ifs.RawCharUnits` | src/byteenc.rs:167-177 | the units of the bytes a string decodes to |
| `Fields.SetMaskRange` | src/expand/field.rs:204-230 | exactly the bits of the range are added, across words, and the mask is no longer than needed |
| `Fields.OrMaskShifted` | src/expand/field.rs:234-261 | exactly the first bits of the source mask are added, shifted by the offset, even when the source has bits past its length |
| `Fields.ShiftInBit` | src/expand/field.rs:234-261 | a shifted word adds exactly its bits at their new positions, those shifted out of one word arriving in the next, and no other bit changes |
| `Fields.ExpandedField.PushQuoted` | src/expand/field.rs:86-96 | appends the bytes protected from splitting and globbing, or notes a quoted empty string |
| `Fields.ExpandedField.PushLiteral` | src/expand/field.rs:102-108 | appends the bytes protected from splitting only |
| `Fields.ExpandedField.PushExpanded` | src/expand/field.rs:117-119 | appends the bytes unprotected |
| `Fields.ExpandedField.AppendField` | src/expand/field.rs:124-145 | concatenates two fields, also when the appended one was built by `all_quoted` |
| `Fields.ExpandedField.AllQuoted` | src/expand/field.rs:180-193 | a field of all-protected bytes, whose masks may have bits past the length |
| `Fields.ExpandedField.IsSplitProtected` | src/expand/field.rs:74-76 | the bit at an index is the attribute of that byte |
| `Fields.ExpandedField.IsGlobProtected` | src/expand/field.rs:79-81 | the bit at an index is the attribute of that byte |
| `Fields.ExpandedField.PushEmptyQuote` | src/expand/field.rs:67-71 | a position already noted last is not noted twice |
| `Fields.PushKeepsWellFormed` | src/expand/field.rs:60-119 | every push keeps glob-protected bytes split-protected and quoted empty positions ascending and in range |
| `Fields.AppendKeepsWellFormed` | src/expand/field.rs:124-145 | appending keeps the same invariant |
| `Ifs.SpellingIrrelevant` | src/expand/field_split.rs:39-116 | the delimiters depend only on the bytes IFS decodes to, not on how the string spells them |
| `Ifs.DelimitersOfBytes` | src/expand/field_split.rs:58-116 | the table built from the string equals the one defined from the bytes |
| `Ifs.SpellingDelimits` | src/expand/field_split.rs:163-183 | each multi-byte unit of IFS is recognized as one delimiter where it stands unprotected |
| `Ifs.AsciiClass` | src/expand/field_split.rs:146-158 | an ASCII byte is white space, a delimiter or neither according to its occurrence in IFS |
| `FieldSplit.NewDelims` | src/expand/field_split.rs:146-158 | the class table built byte by byte is the one defined from the delimiter bytes |
| `FieldSplit.BuildDelims` | src/expand/field_split.rs:58-116 | the delimiters of an IFS value, longest spelling first |
| `FieldSplit.ClassOf` | src/expand/field_split.rs:163-183 | the class and length at a byte of a packed field agree with the plain definition |
| `SplitSpec.DelimiterUnprotected` | src/expand/field_split.rs:163-183 | no byte of a recognized delimiter is protected |
| `FieldSplit.SplitField` | src/expand/field_split.rs:197-307 | the state machine yields exactly the fields of the recursive reading of section 2.6.5 |
| `FieldSplit.RunMachine` | src/expand/field_split.rs:212-300 | from any state, what is emitted and what is left to read make up the whole reading |
| `FieldSplit.AppendRun` | src/expand/field_split.rs:329-361 | appends the bytes with their attributes up to exactly where these change or an unprotected byte can start a delimiter, and slices between characters |
| `FieldSplit.PassDelimiter` | src/expand/field_split.rs:212-300 | one delimiter moves the reading and the machine state alike |
| `FieldSplit.PassEmptyQuotes` | src/expand/field_split.rs:212-300 | quoted empty strings count as zero-width content, one inside a delimiter just after it |
| `FieldSplit.Split` | src/expand/field_split.rs:28-126 | unset, empty and set IFS; every field split, or the list passed through unsplit |
| `FieldSplit.NeedsSplit` | src/expand/field_split.rs:315-317 | true exactly when some field holds an unprotected delimiter byte |
| `SplitProps.SplitConserves` | src/expand/field_split.rs:197-361 | the fields are disjoint, ordered slices of the input with unchanged attributes, and exactly the delimiters are missing |
| `SplitProps.SplitTwice` | src/expand/field_split.rs:28-126 | splitting again changes nothing |
| `SplitProps.SplitFieldsAreDone` | src/expand/field_split.rs:197-361 | no field that comes out holds a delimiter |
| `SplitProps.SplitFieldsKept` | src/expand/field_split.rs:365-368 | every field emitted is non-empty or was quoted |
| `SplitProps.ShortcutAgrees` | src/expand/field_split.rs:118-126 | passing unsplittable fields through gives the same bytes and attributes after the empty-field filter |
| `SplitProps.UnsplitField` | src/expand/field_split.rs:315-317 | a field that needs no splitting comes out unchanged, or not at all when empty and unquoted |
| `PieceSpec.SplitPieces` | src/expand/field_split.rs:163-361 | for every IFS an unquoted value, with quoted text before or behind it or without, splits into the pieces defined by recursion on its bytes and those of IFS |
| `PieceSpec.UnquotedPieces` | src/expand/field_split.rs:163-361 | so does an unquoted value by itself |
| `PieceSpec.ClassIs` | src/expand/field_split.rs:163-183 | what stands at an unprotected byte is IFS white space, or the longest IFS character there, or no delimiter |
| `PieceLaws.OneMark` | src/expand/field_split.rs:197-307 | under an IFS of one ASCII character that is no white space the pieces are the stretches between its occurrences, empty ones included, but for an empty last one |
| `PieceLaws.WhiteSpaceOnly` | src/expand/field_split.rs:197-307 | under an IFS of white space they are the maximal stretches without it |
| `PieceLaws.BlanksAroundMark` | src/expand/field_split.rs:197-307 | with both, white space around a separator that is none adds no field |
| `Chars.SplitFieldsWhole` | src/expand/field_split.rs:197-361 | a field of whole characters splits into fields of whole characters |
| `Chars.IfsDelimsWhole` | src/expand/field_split.rs:58-116 | for every IFS value, only ASCII bytes and first bytes of characters start a delimiter, and multi-byte delimiters are whole strings |
| `Chars.RunEndSliceable` | src/expand/field_split.rs:329-361 | where a run of bytes ends a character ends |
| `Chars.DelimiterEndSliceable` | src/expand/field_split.rs:163-183 | behind a delimiter a character starts |
| `Chars.PushKeepsWhole` | src/expand/field.rs:86-119 | pushing a string keeps the bytes a string whose attributes change between characters only |
| `Chars.AppendKeepsWhole` | src/expand/field.rs:124-145 | so does appending a field |
| `Pathname.HasUnquotedGlobChars` | src/expand/pathname.rs:94-107 | agrees with the definition on plain fields: an unprotected `*`, `?`, or a `[` that closes |
| `Pathname.BracketHasClose` | src/expand/pathname.rs:127-138 | whether an unprotected `]` follows the first member of a bracket expression |
| `Pathname.EscapedPatternOf` | src/expand/pathname.rs:55-64 | the bytes of the field with the protected pattern characters escaped |
| `Pathname.Expand` | src/expand/pathname.rs:17-42 | each field is replaced by its matches, or kept |
| `Pathname.NoGlobSame` | src/expand/pathname.rs:17-42 | fields without pattern characters come out as they are |
| `ScalarProps.FastPathAgrees` | src/expand/mod.rs:41-67 | for every word, IFS and `set -f`: the fast path gives the texts, error and environment of the full pipeline |
| `ScalarProps.StringFastPathAgrees` | src/expand/mod.rs:81-97 | the same in string context |
| `ScalarProps.PartAgrees` | src/expand/scalar.rs:14-75 | one accepted part gives on the string what it gives on a single field |
| `ScalarProps.DollarAtIsTheParameters` | src/expand/pipeline.rs:65-112 | the word `"$@"` expands to exactly the positional parameters, byte for byte, whatever IFS and `set -f` are |
| `WordProps.PipelineShortcutInvisible` | src/expand/mod.rs:56-66 | the pipeline with its shortcuts gives what splitting every field and globbing every field gives |
| `WordProps.WordFieldsGood` | src/expand/pipeline.rs:15-48 | every field a word expands to keeps the field invariant |
| `WordProps.GlobKeepsValues` | src/expand/pathname.rs:17-42 | globbing and filtering depend on the kept bytes and attributes alone |
| `WordLaws.UnquotedParameter` | src/expand/pipeline.rs:461-468 | `$x` of a set parameter comes to the pieces of its value, each replaced by what it matches as a pattern |
| `WordLaws.UnquotedUnderNoglob` | src/expand/pipeline.rs:461-468 | under `set -f` it comes to the pieces themselves |
| `WordLaws.UnquotedPositional` | src/expand/pipeline.rs:461-468 | the same for `$1` and the like |
| `WordLaws.UnquotedCommand` | src/expand/pipeline.rs:157-169 | the same for `$(…)`, under the IFS it leaves |
| `WordLaws.UnquotedArithmetic` | src/expand/pipeline.rs:171-187 | the same for `$((…))`, whose error ends the word |
| `WordLaws.UnquotedList` | src/expand/pipeline.rs:410-457 | `$@` and `$*` come to the pieces of each parameter in turn |
| `WordLaws.QuotedStar` | src/expand/pipeline.rs:410-457 | `"$*"` is one text, the parameters in a row with the separator between them |
| `WordLaws.SeparatorIs` | src/expand/pipeline.rs:473-478 | the separator is a space, nothing or the first character of IFS |
| `WordLaws.DoubleQuotedWhole` | src/expand/pipeline.rs:65-111 | a text, parameter or substitution in double quotes is one text, never split or matched, empty ones included |
| `WordLaws.QuotedText` | src/expand/pipeline.rs:61-63 | so is any other quoted text |
| `WordLaws.LiteralText` | src/expand/pipeline.rs:50-59 | unquoted text of the word is not split; it can be a pattern |
| `WordLaws.TextThenValue` | src/expand/pipeline.rs:15-24 | `a$x`, `'a'$x`: the text goes on with the first piece, or is a field when the value begins with a delimiter |
| `WordLaws.ValueThenText` | src/expand/pipeline.rs:15-24 | `$x'b'`: the last piece goes on with the text, or the text is a field when the value ends with a delimiter |
| `WordLaws.ValueThenValue` | src/expand/pipeline.rs:15-24 | `$x$y` splits like one value |
| `WordLaws.PatternIs` | src/expand/pathname.rs:94-138 | an unquoted text is a pattern for a `*`, a `?`, or a `[` with a `]` behind a member, which a leading `!` is not |
| `FormLaws.ValueUsed` | src/expand/pipeline.rs:190-353 | `${x:-w}` and `${x:=w}` of a parameter with a value are `$x` |
| `FormLaws.TextUsed` | src/expand/pipeline.rs:362-380 | `${x:-s}` without a value and `${x:+s}` with one are `s`, split like a value |
| `FormLaws.NothingUsed` | src/expand/pipeline.rs:190-353 | `${x:+w}` without a value and `${x:-}` are nothing |
| `FormLaws.TextAssigned` | src/expand/pipeline.rs:190-353 | `${x:=s}` without a value assigns `s` and is `s` then; a refused assignment is an expansion error |
| `FormLaws.TextThenAssigned` | src/expand/pipeline.rs:190-353 | behind other text it goes on with that like `$x` |
| `FormLaws.ListAssigned` | src/expand/pipeline.rs:190-353 | `${x:=$@}` assigns the parameters in a row and is `$@` |
| `FormLaws.TildeUsed` | src/expand/pipeline.rs:362-380 | the tilde of `${x:-~}` is the home directory, whole, or text that is split |
| `FormLaws.QuotedDefault` | src/expand/pipeline.rs:362-380 | `"${x:-s}"` is one text |
| `FormLaws.QuotedAlternative` | src/expand/pipeline.rs:362-380 | `"${x:+s}"` is one text |
| `FormLaws.EnclosedList` | src/expand/pipeline.rs:410-457 | `"a$@b"`: the parameters as they are, the first behind a, the last before b |
| `FormLaws.EmptyListBeside` | src/expand/pipeline.rs:65-111 | `''"$@"` and `"$@"''` without parameters are one empty text |
| `FormLaws.ListUsed` | src/expand/pipeline.rs:384-408 | `${@:-w}`, `${@:=w}` and `${@:?w}` with parameters are `$@` |
| `FormLaws.ListStripped` | src/expand/pipeline.rs:190-353 | `${@#p}` and its relatives strip each parameter |
| `FormLaws.PartsInOrder` | src/expand/pipeline.rs:15-24 | parts expand from left to right, each in the environment left before it |
| `FormLaws.ErrorEndsWord` | src/expand/pipeline.rs:15-24 | an error ends the word before the parts behind it expand |
| `FormLaws.Home` | src/expand/pipeline.rs:119-146 | `~` and `~name`: the directory as one text, nothing when empty, the text as written when unknown |
| `FormLaws.ValueString` | src/expand/mod.rs:81-97 | where one string is wanted a value is taken whole |
| `FormLaws.ListString` | src/expand/mod.rs:81-97 | and the parameter list in a row, with spaces or the separator of `"$*"` |
| `FormLaws.QuotedIsPlain` | src/expand/mod.rs:109-134 | where a pattern is wanted quoted text has a backslash before each pattern character |
| `FormLaws.UnquotedIsPattern` | src/expand/mod.rs:109-134 | and unquoted text and values are as they are |
| `Expand.ScalarWord` | src/expand/scalar.rs:95-123 | accepts exactly the words of the predicate and threads text and environment through their parts |
| `Expand.PushScalar` | src/expand/scalar.rs:47-75 | one part appended to the text, with its error and environment |
| `Expand.ExpandWordInto` | src/expand/mod.rs:41-67 | the texts appended are those of the pipeline without any shortcut |
| `Expand.ExpandWords` | src/expand/mod.rs:71-77 | the words in order, up to the first error |
| `Expand.WordsInOrder` | src/expand/mod.rs:71-77 | the texts of the first word come first, the rest expand in the environment it left, and an error ends the list |
| `Expand.ExpandWordToString` | src/expand/mod.rs:81-97 | fast path or join, the text is that of the full pipeline |
| `Expand.WordToPattern` | src/expand/mod.rs:109-134 | the joined fields with protected pattern characters escaped |
| `Expand.ExpandParts` | src/expand/pipeline.rs:15-24 | the packed fields end as the parts, one by one, leave the plain ones |
| `Expand.ExpandPart` | src/expand/pipeline.rs:28-48 | each kind of part on packed fields does what it does on plain ones |
| `Expand.ExpandDoubleQuoted` | src/expand/pipeline.rs:65-111 | quotes around nothing leave a quoted empty string unless `"$@"` expanded to no field |
| `Expand.ExpandTilde` | src/expand/pipeline.rs:119-146 | the home directory, quoted, or the tilde as it was written |
| `Expand.ExpandParam` | src/expand/pipeline.rs:190-353 | every parameter form: unset and null cases, words, assignment, errors, stripping |
| `Expand.ExpandAssign` | src/expand/pipeline.rs:190-353 | `${x:=w}`: the joined value is assigned and the expanded fields are appended |
| `Expand.ExpandModifier` | src/expand/pipeline.rs:362-380 | the word of a modifier, with its own tilde and literal rules |
| `Expand.PushPositionalValues` | src/expand/pipeline.rs:410-457 | `@` and `*`: one field a value, or one joined field, in every quoting context |
| `ExecSpec.RunBody` | src/exec/compound.rs:78-89 | a list ends with its first item that does not end normally; a break or continue reaches a loop that is there and a return something that takes it |
| `ExecSpec.RunCall` | src/exec/function.rs:28-86 | no break, continue or return ever leaves a function call |
| `ExecSpec.RunDot` | src/exec/mod.rs:161-194 | a dot script lets no return out, while its break and continue reach the loops around it |
| `ExecSpec.RunWhile` | src/exec/compound.rs:236-282 | a break or continue left by the condition or body of a loop is in range for the loops outside it |
| `ExecSpec.RunItemsOfCase` | src/exec/compound.rs:339-395 | the same for the items of a case, fall-through included |
| `ExecSpec.RunLoopControl` | src/builtin/flow.rs:90-124 | the count of break and continue is at least 1 and at most the loops there are |
| `ExecSpec.RunReturn` | src/builtin/flow.rs:48-78 | a return ends something only inside a function or dot script |
| `ExecSpec.RunSubshell` | src/exec/compound.rs:125-173 | a subshell always ends normally for its parent |
| `ExecProps.FuelSuffices` | src/exec/mod.rs:283-324 | a program that ends within its fuel ends the same way with any more fuel |
| `ExecProps.QuietIgnoresErrexit` | src/exec/mod.rs:196-228 | a condition, a negated pipeline or a non-final pipeline of an AND-OR list runs the same with `set -e` and without, calls included |
| `ExecProps.BodySame` | src/exec/compound.rs:78-89 | both statements, for every list in every scope |
| `ExecProps.WhileSame` | src/exec/compound.rs:236-282 | both statements, for loops from any round on |
| `ExecLaws.InOrder` | src/exec/compound.rs:80-89 | commands of a list run one after the other; the status is the last one's |
| `ExecLaws.ForBreak` | src/builtin/flow.rs:80-124 | `break` ends the loop in its first round with status 0, and nothing behind it runs |
| `ExecLaws.ForContinue` | src/builtin/flow.rs:84-124 | `continue` ends each round and not the loop, and nothing behind it runs |
| `ExecLaws.ForEach` | src/exec/compound.rs:293-337 | otherwise the body runs once for each word; without words the status is 0 |
| `ExecLaws.OuterLoop` | src/builtin/flow.rs:90-124 | `break 2` in a loop in a loop ends both, `continue 2` goes on with the next round of the outer one |
| `ExecLaws.WhileTimes` | src/exec/compound.rs:236-282 | a `while` or `until` whose test goes on n times runs its body n times and the test once more |
| `ExecLaws.WhileBreak` | src/exec/compound.rs:236-282 | `break` in a `while` leaves one test and one run of what is before it |
| `LeavingLaws.ConditionBreaks` | src/exec/compound.rs:236-282 | `break` in the condition ends the loop before its body |
| `LeavingLaws.ConditionExits` | src/exec/compound.rs:175-282 | `exit` in a condition runs neither branch nor body |
| `LeavingLaws.LoopPassesOn` | src/exec/compound.rs:96-119 | `return` and `exit` in a `for` leave it |
| `LeavingLaws.WhilePassesOn` | src/exec/compound.rs:96-119 | and in a `while` or `until` |
| `CommandLaws.LineRuns` | src/exec/control/mod.rs:112-163 | `a; b` runs both, `a & b` only starts the first |
| `CommandLaws.IfRuns` | src/exec/compound.rs:175-206 | after status 0 the `then` part runs, after any other the `else` part; without one the status is 0 |
| `CommandLaws.ElifRuns` | src/exec/compound.rs:175-206 | an `elif` is tried after a failed condition alone |
| `CommandLaws.TwoRun` | src/exec/control/and_or.rs:10-46 | `&&` goes on after status 0 alone, `||` after any other |
| `CommandLaws.ThreeRun` | src/exec/control/and_or.rs:10-46 | in a longer list each looks at the last command that ran |
| `CommandLaws.NotRuns` | src/exec/pipeline.rs:15-37 | `!` turns success into 1 and any failure into 0 |
| `CommandLaws.CaseOfTwo` | src/exec/compound.rs:339-395 | the first matching item runs, the next one too behind `;&`, and no pattern is tried behind a match |
| `LeavingLaws.PatternsTried` | src/exec/compound.rs:339-395 | each pattern of an item is tried, up to the first that matches |
| `ErrexitLaws.FailureEnds` | src/exec/mod.rs:208-232 | under `set -e` a failing command ends the shell with its status |
| `ErrexitLaws.SuccessGoesOn` | src/exec/mod.rs:208-232 | one that succeeds, and any negated one, does not |
| `ErrexitLaws.OnlyTheLastEnds` | src/exec/control/and_or.rs:10-80 | of an AND-OR list only the last command can |
| `ErrexitLaws.ConditionSpared` | src/exec/compound.rs:175-206 | a failing condition does not |
| `ErrexitLaws.GroupKeepsExemption` | src/exec/control/and_or.rs:69-80 | nor a group that ends with an exempt command |
| `ErrexitLaws.CallDropsExemption` | src/exec/function.rs:57-62 | but a function call that does |
| `ErrexitLaws.PipelineRuns` | src/exec/pipeline.rs:15-37 | a failing pipeline of several members ends the shell like a command |
| `LeavingLaws.ExitEnds` | src/builtin/flow.rs:8-46 | `exit n` ends the shell with n modulo 256 |
| `LeavingLaws.SubshellEnds` | src/exec/compound.rs:125-173 | in a subshell it ends the child alone, whose status the parent sees |
| `LeavingLaws.ChildStatusSeen` | src/exec/mod.rs:259-281 | the parent sees the child's exit code, 1 after a fatal error or a failed wait, whatever `!` made of the status |
| `LeavingLaws.ForkFails` | src/exec/compound.rs:125-131 | a failed fork is an error |
| `LeavingLaws.SubshellsAreNot` | src/exec/compound.rs:125-173 | a subshell is not interactive, whatever the shell is |
| `LeavingLaws.ReturnEnds` | src/exec/function.rs:28-86 | `return n` ends the function with that status and nothing around the call |
| `LeavingLaws.NegatedReturn` | src/exec/function.rs:57-85 | `! return n` ends it with n |
| `LeavingLaws.LastStatus` | src/builtin/flow.rs:8-78 | `exit` and `return` without operand keep the status before |
| `LeavingLaws.LoopsStayOutside` | src/exec/function.rs:28-86 | `break` in a function is not about the loops around the call |
| `LeavingLaws.NothingToLeave` | src/builtin/flow.rs:48-124 | outside loops, and `return` outside functions and scripts, these fail with status 1 |
| `LeavingLaws.BadOperand` | src/builtin/flow.rs:48-124 | a bad operand gives status 2 and ends a shell that is not interactive |
| `LeavingLaws.BadExit` | src/builtin/flow.rs:8-46 | a bad operand of `exit` gives status 2 |
| `CommandLaws.EvalRuns` | src/builtin/eval.rs:8-28 | an evaluated text runs; a syntax error behind it gives 2 |
| `CommandLaws.EvalBreaks` | src/builtin/eval.rs:8-28 | `break` in it is about the loops around the `eval` |
| `CommandLaws.DotRuns` | src/exec/mod.rs:161-194 | a dot script runs; a syntax error gives 2 |
| `CommandLaws.DotReturns` | src/exec/mod.rs:161-194 | `return n` in a dot script ends the script with that status |
| `CommandLaws.AsyncStarts` | src/exec/control/mod.rs:112-163 | `list &` is started and not waited for |
| `CommandLaws.NotPrepared` | src/exec/compound.rs:17-76 | a compound command whose redirections fail does not run |
| `LeavingLaws.WordsFail` | src/exec/compound.rs:293-337 | a `for` whose words fail runs no body |
| `LeavingLaws.VariableFails` | src/exec/compound.rs:293-337 | nor one whose variable cannot be assigned |
| `LeavingLaws.WordsFatal` | src/exec/compound.rs:293-357 | words that raise a fatal error leave it pending, with status 1, in `for` and `case` |
| `LeavingLaws.CaseFails` | src/exec/compound.rs:339-395 | a `case` whose word fails runs no item |
| `LeavingLaws.PatternFails` | src/exec/compound.rs:339-395 | a pattern that fails gives the `case` up |
| `LeavingLaws.CommandStops` | src/exec/mod.rs:238-250 | behind a fatal error or an exit request nothing runs |
| `LeavingLaws.LimitReached` | src/exec/function.rs:28-56 | at the nesting limit a call is a fatal error of status 1 |
| `CommandLaws.NoExec` | src/exec/control/mod.rs:17-56 | under `set -n` nothing runs |
| `CommandLaws.Defines` | src/exec/control/mod.rs:60-86 | a definition gives status 0, one of a special built-in's name 2 |
| `Exec.Executor.ExecBody` | src/exec/compound.rs:80-89 | flag, exit request, status, `$?` and events are those of the structured evaluator, all counters are restored, and a pending break, continue or return is in range of the loops and functions that run |
| `Exec.Executor.ListItemStopsList` | src/exec/control/mod.rs:169-185 | stops exactly when something is pending or `set -e` applies |
| `Exec.Executor.ExecCompleteCommand` | src/exec/control/mod.rs:112-163 | the items in order, with the `set -e` check after each |
| `Exec.Executor.ExecAndOr` | src/exec/control/and_or.rs:10-46 | short-circuit evaluation with the exemption of all but the last pipeline |
| `Exec.Executor.ExecPipelineErrexit` | src/exec/control/and_or.rs:69-80 | the suppression counter is raised and lowered around exempt pipelines |
| `Exec.Executor.ExecPipeline` | src/exec/pipeline.rs:15-37 | status and its negation |
| `Exec.Executor.ExecCommand` | src/exec/control/mod.rs:22-56 | dispatch, error reports and the exemption cleared after simple commands |
| `Exec.Executor.ReportCommandError` | src/exec/control/mod.rs:94-109 | exit code, and an exit request in a non-interactive shell |
| `Exec.Executor.DefineFunction` | src/exec/control/mod.rs:60-86 | a special built-in name is refused |
| `Exec.Executor.ExecSimpleCommand` | src/builtin/flow.rs:48-124 | the control-flow built-ins set the flag or exit request that their structured ending stands for |
| `Exec.Executor.ExecFunctionCall` | src/exec/function.rs:28-86 | scope, indirection level and loop depth are restored, a pending return is taken, and nothing but a fatal error stays pending |
| `Exec.Executor.FinishCall` | src/exec/function.rs:57-85 | the exemption does not cross the call, errors are reported, a return gives the status |
| `Exec.Executor.ExecText` | src/exec/mod.rs:283-324 | commands are read and run one at a time up to a syntax error or an unwinding |
| `Exec.Executor.BuiltinEval` | src/builtin/eval.rs:8-28 | a syntax error gives status 2, everything else passes through |
| `Exec.Executor.SourceFile` | src/exec/mod.rs:161-194 | the dot-script flag and indirection level are restored on every path, and a pending return is taken |
| `Exec.Executor.ExecCompoundCommand` | src/exec/compound.rs:17-76 | redirection and assignment failures, and errors of the command itself, leave exactly the error to report |
| `Exec.Executor.ExecSubshell` | src/exec/compound.rs:125-173 | the child runs on a copy, and only its exit status comes back |
| `Exec.Executor.ExecIf` | src/exec/compound.rs:175-206 | conditions under suppression, and an unwinding condition runs no branch |
| `Exec.Executor.LoopMustStop` | src/exec/compound.rs:96-119 | consumes a break or continue aimed at this loop and re-raises the rest |
| `Exec.Executor.ExecLoopInner` | src/exec/compound.rs:236-282 | loops with break and continue in condition and body refine the structured loop |
| `Exec.Executor.ExecForInner` | src/exec/compound.rs:293-337 | word errors, assignment errors and rounds refine the structured loop |
| `Exec.Executor.ExecCase` | src/exec/compound.rs:339-395 | pattern order, errors, terminators and fall-through refine the structured case |
| `Pipes.Process.CreatePipe` | src/exec/pipeline.rs:331-356 | two new ends above the standard descriptors and nothing else changed, or the table as it was |
| `Pipes.Process.CreatePipes` | src/exec/pipeline.rs:370-385 | that many pipes with distinct new ends, or the table as it was |
| `Pipes.Process.CloseAllPipes` | src/exec/pipeline.rs:359-366 | exactly the ends are closed |
| `Pipes.Process.ConnectMember` | src/exec/pipeline.rs:390-412 | member i is left with its input and output ends on 0 and 1 and no other end |
| `Pipes.Process.ExecMultiPipeline` | src/exec/pipeline.rs:39-140 | the shell has the table it had on every path, each member runs with its own table or exited because a call failed, and a pipe end is never left open in the shell and open in a running member only at the standard descriptor it belongs to |
| `Pipes.PipelineStatus` | src/exec/pipeline.rs:185-205 | the status of the last member, or with `pipefail` the last one that is not 0 |
| `Pipes.OnlyItsMember` | src/exec/pipeline.rs:387-412 | the write end of a pipe is open in one member only, as its output, and the read end in the next, as its input |
| `Pipes.Inherited` | src/exec/pipeline.rs:387-412 | what a member does not get from a pipe it has from the shell: the first its input, the last its output, all any other descriptor |
| `Pipes.ClosedAgain` | src/exec/pipeline.rs:359-366 | closing all ends gives back the table the pipes were made in |
| `Pipes.Connected` | src/exec/pipeline.rs:390-412 | connecting and closing leaves the member its two ends |
| `HistoryFile.EscapeRoundTrip` | src/interactive/history.rs:13-47 | unescaping the escaped bytes gives them back, and no newline is left in a line |
| `HistoryFile.Escapes` | src/interactive/history.rs:13-47 | a newline is written `\n` and a backslash twice; other escapes and a lone backslash are kept when read |
| `HistoryFile.LegacyReads` | src/interactive/history.rs:329-344 | without the header every line is an entry as it is |
| `HistoryFile.DecodedEscaped` | src/interactive/history.rs:14-24 | escaping characters escapes the bytes they decode to |
| `HistoryFile.DecodedUnescaped` | src/interactive/history.rs:28-47 | unescaping characters unescapes the bytes they decode to |
| `HistoryFile.EscapeEntry` | src/interactive/history.rs:14-24 | the loop computes the escaped entry |
| `HistoryFile.UnescapeEntry` | src/interactive/history.rs:28-47 | the loop computes the unescaped entry, lenient cases included |
| `HistoryFile.FileRoundTrip` | src/interactive/history.rs:279-344 | a written file reads back as exactly the non-empty entries written |
| `HistoryFile.SavesMerge` | src/interactive/history.rs:256-318 | whatever the order of the saves, the file ends with the last N of its first entries and each session's, in save order |
| `HistoryFile.SavedEntries` | src/interactive/history.rs:279-318 | one save keeps the last N of what the file held and what was added |
| `HistoryList.ReadEntries` | src/interactive/history.rs:329-344 | the entries read decode to those the file holds, in either format |
| `HistoryList.History.Add` | src/interactive/history.rs:146-166 | the next number goes to the command, earlier numbers keep theirs, and the recalled entry stays recalled while kept |
| `HistoryList.History.TruncateTo` | src/interactive/history.rs:179-190 | the last entries stay, with their numbers, and the cursor stays on its entry or ends |
| `HistoryList.History.IndexOf` | src/interactive/history.rs:127-131 | a number finds the command that got it for as long as it is kept, and nothing otherwise |
| `HistoryList.History.Load` | src/interactive/history.rs:252-258 | the entries of the file get the next numbers |
| `HistoryList.History.Save` | src/interactive/history.rs:279-318 | the new file is the old entries and this session's, cut to the limit |
| `HistoryList.History.NavigateUp` | src/interactive/history.rs:192-211 | recalls the previous number, saving the line first; nothing at the oldest |
| `HistoryList.History.NavigateDown` | src/interactive/history.rs:213-225 | recalls the next number, or the saved line after the newest |
| `HistoryList.History.NavigateTo` | src/interactive/history.rs:236-245 | recalls the entry asked for |
| `HistoryList.NumberAgrees` | src/builtin/fc.rs:90-110 | a positive operand of `fc` finds the entry of that history number while kept, the nearest one otherwise |
| `HistoryList.OffsetFromEnd` | src/builtin/fc.rs:111-117 | `-n` is the nth entry from the end, 0 the last, and too large an n the oldest |
| `HistoryList.PrefixIsLatest` | src/builtin/fc.rs:118-123 | a text finds the last command that starts with it, and nothing when none does |
| `HistoryList.FcResolveRange` | src/builtin/fc.rs:127-161 | no operand: the last 16 entries when listing, else the last one; one operand: from its entry to the last when listing, else that entry; two: from the first's to the second's; fails exactly when an operand read finds nothing |
| `Getopts.StepMoves` | src/builtin/getopts.rs:157-317 | no call leaves the range, OPTIND stays at most operands + 1, and a call with status 0 moves strictly forward |
| `Getopts.RunEnds` | src/builtin/getopts.rs:157-317 | the options end within as many calls as the operands have bytes |
| `Getopts.GroupedIsSeparate` | src/builtin/getopts.rs:157-317 | `-abc` and `-a -b -c` give the same names and arguments, for letters that take none |
| `Getopts.RunShifts` | src/builtin/getopts.rs:157-317 | only the operands from OPTIND on matter |
| `GetoptsLaws.AttachedIsSeparate` | src/builtin/getopts.rs:157-317 | `-cARG` and `-c ARG` give the same names and arguments, the first being c with ARG, whatever ARG is |
| `GetoptsLaws.PlainOption` | src/builtin/getopts.rs:256-270 | a listed letter without argument gives itself and unsets OPTARG |
| `GetoptsLaws.UnknownOption` | src/builtin/getopts.rs:213-254 | any other byte gives `?`; a silent call puts it into OPTARG, a loud one reports it |
| `GetoptsLaws.ArgumentAttached` | src/builtin/getopts.rs:272-283 | the bytes behind a letter that takes an argument are its argument |
| `GetoptsLaws.ArgumentApart` | src/builtin/getopts.rs:285-317 | else the next operand is; without one the letter is reported, by `:` or `?` |
| `GetoptsLaws.OptionsEnd` | src/builtin/getopts.rs:157-197 | `--` ends the options and is passed, an operand that is none ends them and is not |
| `GetoptsLaws.StaleIndex` | src/builtin/getopts.rs:174-182 | an index past the operand is dropped |
| `GetoptsLaws.Silence` | src/builtin/getopts.rs:58-73 | a leading `:` asks for silence and is no letter; without operands the positional parameters are read |
| `Getopts.Vars.BuiltinGetopts` | src/builtin/getopts.rs:25-134 | a usage error gives status 2 and a read-only target 1, and both change nothing; otherwise the variables are set and the next call starts where this one ended |
| `Quote.QuotedReadsBack` | src/builtin/quote.rs:27-43 | a quoted value is read back as one word, whatever it contains |
| `Quote.ReinputReadsBack` | src/builtin/quote.rs:16-25 | so is a value quoted only when needed |
| `Quote.SingleQuote` | src/builtin/quote.rs:31-43 | the loop computes the quoted value |
| `Quote.PlainIsHarmless` | src/builtin/quote.rs:16-25 | no character left unquoted has a meaning to the shell |
| `Traps.ReplayRebuilds` | src/env/traps.rs:195-254 | reading the listing of any store the built-in can reach and running it in any store that holds a part of it rebuilds the store |
| `Traps.SavedInCommandSub` | src/env/traps.rs:161-167 | `$(trap)`: the text a command substitution prints rebuilds the parent's store, from an empty store and from the one a subshell starts with |
| `Traps.ListingReads` | src/env/traps.rs:183-213 | the listing is read back as one command a line |
| `Traps.ChangesKeepGood` | src/builtin/trap.rs:93-107 | no store comes to hold an action that would be read back as something else |
| `TrapLaws.ChangeEachSets` | src/env/traps.rs:64-121 | the action is set for exactly the conditions named, the default one by removal; signals ignored on entry keep what they had |
| `TrapLaws.ChangeEachStatus` | src/builtin/trap.rs:93-109 | an unknown condition gives status 1 and does not stop the rest |
| `TrapLaws.Conditions` | src/env/traps.rs:25-54 | a signal goes by number or name, 0 and EXIT are the end of the shell |
| `TrapLaws.ActionFirst` | src/builtin/trap.rs:74-92 | the first operand is a command, `''` to ignore or `-` to reset the conditions behind it |
| `TrapLaws.ActionBehindEnd` | src/builtin/trap.rs:35-73 | behind `--` it may look like an option |
| `TrapLaws.ConditionsFirst` | src/builtin/trap.rs:74-80 | with a number first, or one operand, all are conditions to reset |
| `TrapLaws.Listings` | src/builtin/trap.rs:42-70 | no operand and `-p` list all traps, `-p` with conditions these |
| `TrapLaws.UnknownOption` | src/builtin/trap.rs:45-71 | any other option is a usage error, also behind `-p` |
| `TrapLaws.SubshellKeeps` | src/env/traps.rs:130-150 | a subshell keeps what is ignored and nothing else |
| `TrapLaws.OneListed` | src/env/traps.rs:195-254 | `trap -p` of a condition lists the trap there, or nothing |
| `TrapLaws.ExitFirst` | src/env/traps.rs:195-254 | a full listing begins with the trap of the shell's end |
| `TrapLaws.AscendingSorted` | src/env/traps.rs:195-254 | the signals follow by number, each once |
| `Traps.TrapStore.SetTrap` | src/env/traps.rs:64-83 | the action is stored, except for signals ignored on entry and unknown conditions |
| `Traps.TrapStore.RemoveTrap` | src/env/traps.rs:105-121 | the action is removed, with the same exceptions |
| `Traps.TrapStore.ResetForSubshell` | src/env/traps.rs:147-150 | ignored conditions stay, commands go, nothing saved is shown |
| `Traps.TrapStore.ResetForCommandSub` | src/env/traps.rs:161-167 | the same, while listings still show the parent's store |
| `Traps.TrapStore.Listing` | src/env/traps.rs:195-254 | the lines of the traps shown, exit first and signals by number |
| `Traps.BuiltinTrap` | src/builtin/trap.rs:35-109 | store, status and output for every operand list, and the store invariant is kept |
| `Scan.BracesReadBack` | src/expand/scan.rs:106-159 | wherever a printed body and its `}` stand, a scan from its start at depth 1 stops at that `}` |
| `Scan.PrintedReadBack` | src/expand/scan.rs:106-159 | so with any text before and behind |
| `Scan.ParensReadBack` | src/expand/scan.rs:75-104 | the naive scan stops at the `)` after any balanced text |
| `Scan.NaiveCloses` | src/expand/scan.rs:75-104 | so it meets the contract the brace scan asks of it |
| `Scan.PassBody` | src/expand/scan.rs:119-159 | a well-formed body is crossed at the depth it was entered with |
| `Scan.SkipBalancedBraces` | src/expand/scan.rs:119-159 | the loop computes the scan and stays in range |
| `Scan.SkipBalancedParensNaive` | src/expand/scan.rs:79-104 | the loop computes the scan and stays in range |
| `Scan.BracesStop` | src/expand/scan.rs:119-159 | a scan that does not reach the end stops at a `}` |
| `Scan.ParensStop` | src/expand/scan.rs:79-104 | or at a `)` |
| `Scan.NoCloser` | src/expand/scan.rs:75-159 | without a closer a scan comes to the end |
| `Scan.OpenQuotes` | src/expand/scan.rs:32-54 | an unclosed quote runs to the end, as does a backslash there |
| `Scan.SkipQuotedOrEscaped` | src/expand/scan.rs:32-54 | quoted runs and escapes, also unterminated ones |
| `Scan.SkipDelimited` | src/expand/scan.rs:10-20 | past the next unescaped closing byte |
| `Canon.CanonicalForm` | src/builtin/cd.rs:103-138 | the result is absolute, with no empty, dot or dot-dot component |
| `Canon.Idempotent` | src/builtin/cd.rs:103-138 | a canonical path is canonical again, from anywhere |
| `Canon.Composes` | src/builtin/cd.rs:103-138 | going to q and from there to p is going to q/p |
| `Canon.DownAndUp` | src/builtin/cd.rs:103-138 | into a directory and up again is where one was |
| `Canon.Down` | src/builtin/cd.rs:103-138 | a component goes behind the canonical directory and a slash |
| `Canon.UpAndStay` | src/builtin/cd.rs:103-138 | nothing is above the root, and a dot is where one is |
| `Canon.FromRoot` | src/builtin/cd.rs:103-138 | an absolute path does not depend on the directory |
| `Canon.UpsStay` | src/builtin/cd.rs:103-138 | from a relative directory the leading `..` stay |
| `Canon.LexicalCanonicalize` | src/builtin/cd.rs:103-138 | the loop over components computes the canonical path, for relative directories too |

## Left out

- ScalarProps.FastPathAgrees: `set -f` is a parameter that expansions cannot change, because only commands change it; a command substitution runs in a child.
- Expand.ExpandParam: parameter values, pattern stripping, arithmetic, command substitution and home directories are arbitrary functions of the environment; the nesting limit of `${x:-${x:-…}}` is not modelled.
- Expand.WordToPattern: how a pattern matches is not modelled, only how it is written.
- WordLaws.TextThenValue: stated under `set -f`, as the other laws on quoted and unquoted text side by side are.
- PieceSpec.SplitPieces: fields in which quoted and unquoted text alternate more often than text, value, text are the subject of `FieldSplit.SplitField` alone.
- ExecLaws.ForEach: the bodies of these laws are lists of commands with a status of their own; arbitrary bodies are the subject of `Exec.Executor.ExecForInner`.
- LeavingLaws.LastStatus: in a trap action `exit` keeps the status from before the action, which is not modelled.
- Pathname.Expand: what a pattern matches in the file system is an arbitrary function of the environment and the pattern.
- Chars.PushKeepsWhole: that what expansions push are whole strings is what the type `&str` says in the source; it is a hypothesis here.
- Exec.Executor.ExecLoopInner: a run has fuel for its loop rounds and nested calls. Running out in a loop or text ends the shell like an exit request, and at a call like the nesting limit; `ExecProps` shows that a run that does not run out is the same with any more fuel.
- Exec.Executor.ExecSimpleCommand: expansions, assignments, redirections and utilities are one step of arbitrary outcome; `command` in front of a special built-in, which keeps its errors from ending the shell, is not told apart.
- Exec.Executor.ListItemStopsList: trap actions between commands are not run, and a non-interactive `exit` or `set -e` is an exit request like an interactive one.
- Exec.Executor.ExecCompleteCommand: signals are not drained and jobs neither reaped nor announced between items.
- Exec.Executor.ExecAndOr: no trap actions run between pipelines.
- Exec.Executor.ExecPipeline: a pipeline of several members is one step with an arbitrary status; its descriptors and how its status is chosen are modelled in `Pipes`, job control is not.
- Exec.Executor.ExecCase: patterns do not raise a fatal expansion error without failing.
- Exec.Executor.ExecSubshell: the child's EXIT trap is not run.
- Pipes.Process.ExecMultiPipeline: signals, process groups, job control and what members do after their descriptors are connected are not modelled; descriptor numbers are unbounded, and any call may fail instead.
- `exec_async_pipeline`: the same plumbing, with the standard input of the first member from `/dev/null`.
- HistoryList.History.Save: the file is its bytes; locking, permissions and input or output errors are not modelled.
- HistoryList.History.Add: HISTSIZE and HISTCONTROL are passed already read.
- Getopts.Vars.BuiltinGetopts: reading a written OPTIND as a number is an arbitrary function; diagnostics are named, not worded.
- Traps.ReplayRebuilds: signal names and numbers are assumed to correspond; the listing is replayed as the string it is, not through the bytes it is written as.
- Traps.BuiltinTrap: signal dispositions of the operating system are not modelled; whether the output can be written is one flag.
- Scan.BracesReadBack: of the scanner for `$(…)` bodies only a contract is used, which the naive scan is shown to meet; `Lexer::find_command_sub_end` is not part of this model.
- `skip_balanced_double_parens`, CDPATH and HOME for `cd`, job control, signals, startup, the line editor, prompts, plugins: they would add single-branch facts or system calls.
- Escape characters for bytes below 0x80 inside shell strings: the encoder makes none (`ByteEnc.EncodedHighEscapes`), and the theorems on strings assume none.
