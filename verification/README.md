# Verified models of a column store and of its lint script's scanners

The repository holds a small in-memory column store (`src/lib/storage`) and a copy of the C++ style
checker `cpplint.py`. This project models the parts of both that carry state and proves what they
promise. `dafny verify dfyconfig.toml` checks everything.

**cpplint.** `ExpressionScanner` has the two bracket scanners and their searches across lines, with every
heuristic for `<`, `>`, `<<`, `->`, ` >= `, `operator` and `;`. `Brackets` has what they are measured
against: a plain matcher and, independently, a grammar of well-nested text. `MatchingTheorems` connects
them, and `FailedSearches` says at which line a search without an answer stops. `AngleWords` is a reading of
text between angle brackets that knows no scanner, `AngleSearch` shows that the searches are such readings, and
`AngleTheorems` says which place is reported for `<` and `>`; `ScannerTexts` says for which texts each heuristic
applies, and what the scanners make of them. `TextInside` adds the third matcher, `CommentRemoval` the pass over
multi-line comments, for any two tests of a line, and `CommentTests` the lines that cpplint's own tests accept,
with the pass on comments made of such lines.
`NestingModel` is the nesting machine on values, `NestingState` the same machine as cpplint keeps it: block
objects changed in place, and checkpoints that are deep copies. `BranchTheorems` says what the stack is inside
the branches of conditionals, `LineTheorems` what the declarations, braces, parentheses and labels of a line
leave on it.

**Column store.** `Values`, `Dictionary`, `AttributeVectors` and `Columns` model values, dictionaries,
fitted id vectors and compression, and `OrderTheorems` states dictionaries and scans in the orders of the
element types; `ColumnStore` and `Storage` have columns, chunks and tables as objects.
`TableModel` says what every table operation does, refused and half-done calls included; every method of
`Storage` is proved to do exactly that, and `TableTheorems`, `TableRows` and `RowAddresses` prove what runs of
operations keep; `TableEffects` says what single calls leave behind; `TableExamples` has small tables on which a
call does only part of its work. Since not every call keeps the table sound, the calls that do are characterised
exactly (`TableTheorems.Allowed`), by a condition on the table and the arguments before the call.

Where the code and its comments disagree, the model follows the code:

- `CloseExpression` and `ReverseCloseExpression` are documented for `<` and `>` as they are for the brackets.
  What they report is characterised exactly (`AngleTheorems.AngleCloseIsExact`, `AngleTheorems.AngleOpenIsExact`),
  and it is not always the other angle bracket. A `<` after another `<` or after `operator`, and the `>` of `->`,
  ` >= ` or `operator>`, are not put on the stack, and the answer can then be a bracket that has nothing to do
  with them. The two directions also disagree: to the right the `>` of ` >= ` counts, and so does that of
  `operator>`, because the text tested for `operator` at cpplint.py:1521 leaves out the character before the `>`,
  against the comment above it; to the left both are ignored, but the `<` of `operator<` counts, and a run of `<`
  is read in pairs. When the two searches still lead back to each other is stated exactly
  (`AngleTheorems.AnglesLeadBack`).
- `NestingState.Update` says that stacks are not modified in place. The blocks on them are; the deep copies
  are what keeps the checkpoints intact.
- `FittedAttributeVector::set` accepts an index equal to the size, where the write is undefined.
- `Table::add_column` that throws because a chunk has rows has already registered the definition, and
  chunks in front of the refusing one keep the new column.
- `Table::append` that throws on a full table has already created a new chunk, so a table can have one chunk
  more than its rows need; the calls that do this are characterised (`RowAddresses.StepKeepsPacked`). One that
  throws in the middle of a row leaves a ragged chunk.

## Model

| member | source | states |
|---|---|---|
| ExpressionScanner.FindEndOfExpressionInLine | cpplint.py:1466-1541 | the loop, which changes the caller's list in place, reports what `ScanForward` says for every line, start and list: a position and the list empty, a failure and what was abandoned in the list, or the same list with what is still open |
| ExpressionScanner.CloseExpression | cpplint.py:1544-1585 | the search returns line, line number and position of the partner, or the last line looked at, the number of lines and -1 |
| ExpressionScanner.FindStartOfExpressionInLine | cpplint.py:1588-1662 | the same for the loop to the left, with its double steps over `->`, ` >= `, `operator>` and `<<` |
| ExpressionScanner.ReverseCloseExpression | cpplint.py:1665-1700 | the search to the left across lines, with its failure value |
| MatchingTheorems.ForwardIsTransparent | cpplint.py:1479-1541 | above a bracket, the scan with all angle heuristics gives the position, and the stack up to `<`, of a matcher that knows only brackets |
| MatchingTheorems.BackwardIsTransparent | cpplint.py:1604-1662 | the same for the scan to the left, whose double steps never swallow a bracket |
| Brackets.ForwardMeansPrimitive | cpplint.py:1479-1516 | matching from an opener stops after exactly the primitive well-nested word that starts there, and nowhere if there is none |
| Brackets.BackwardMeansPrimitive | cpplint.py:1604-1650 | matching from a closer stops at exactly the primitive well-nested word that ends there |
| Brackets.BackwardIsMirroredForward | cpplint.py:1591-1592 | reading to the left is reading the mirror image to the right |
| MatchingTheorems.LineBreaksDoNotMatter | cpplint.py:1571-1585 | the search across lines and one scan of the concatenated lines by the same scanner name the same place |
| MatchingTheorems.CloseMeansPrimitive | cpplint.py:1544-1585 | soundness, completeness and uniqueness: the answer is `(m, e)` iff the text from the opener to there is a primitive well-nested word |
| MatchingTheorems.OpenMeansPrimitive | cpplint.py:1665-1700 | the same for the reverse search from a closer |
| FailedSearches.FailedCloseMeans | cpplint.py:1571-1585 | the search from an opener fails at line `m` iff the brackets from there contradict each other by the end of `m` and of no earlier line, or are left open and `m` is the last line |
| FailedSearches.FailedOpenMeans | cpplint.py:1686-1700 | the same for the reverse search from a closer |
| MatchingTheorems.RoundTrip | cpplint.py:1544-1700 | over any lines, the partner of an opener is a closer iff the partner of that closer is the opener |
| MatchingTheorems.ClosedExpressionReopens | cpplint.py:1544-1700 | whatever the forward search finds from an opener is the matching closer, and the reverse search from it returns to the opener |
| MatchingTheorems.ReopenedExpressionCloses | cpplint.py:1544-1700 | whatever the reverse search finds from a closer is the matching opener, and the forward search from it returns to the closer |
| AngleTheorems.AngleCloseIsExact | cpplint.py:1466-1585 | from a `<`, place `(m, e)` is reported iff there is plain text up to the first character that goes on the stack, and `(m, e)` answers that: for a bracket its partner; for a `<` the first counted `>` at which the weights of the characters outside well-nested brackets have brought the depth to 0, with no bare `;` before it. Soundness, completeness and uniqueness in one |
| AngleTheorems.AngleOpenIsExact | cpplint.py:1588-1700 | the same for the reverse search from a `>`, with the weights that its double steps over `->`, ` >= `, `operator>` and `<<` amount to |
| AngleTheorems.AnglesLeadBack | cpplint.py:1544-1700 | from the answer to a `<` that goes on the stack the reverse search returns to it iff the weights to the left make up, at every bare position, for where they differ from those to the right |
| AngleTheorems.AnglesRoundTrip | cpplint.py:1544-1700 | if no angle bracket outside the brackets in between is part of `<<` or ` >= ` or near `operator`, the answer to a `<` is a `>` iff the answer to that `>` is the `<` |
| AngleTheorems.WholeBothWays | cpplint.py:1571-1700 | all lines can be laid out, for both directions at once, as the results about angles assume |
| AngleSearch.PushedAngleIsAnswered | cpplint.py:1479-1585 | over any lines laid out as one text, the search from a `<` that goes on the stack reports exactly the place that answers it |
| AngleSearch.PushedAngleIsAnsweredBack | cpplint.py:1604-1700 | the same to the left |
| AngleWords.AnswerMeans | cpplint.py:1479-1541 | keeping a depth and a stack of brackets character by character ends in an answer exactly where the independent condition on sums of weights over well-nested text holds |
| AngleWords.AnswerBackMeans | cpplint.py:1604-1662 | the same to the left |
| AngleTheorems.OuterAngleIsReported | cpplint.py:1484-1530 | of the two `>` of a concrete line the one that closes the outer `<` is reported |
| AngleTheorems.GreaterEqualIsTakenForAngle | cpplint.py:1516-1530 | a concrete line on which the `>` of ` >= ` is reported for a `<`, and the reverse search from it finds nothing |
| AngleTheorems.LessEqualIsTakenForAngle | cpplint.py:1621-1632 | a concrete line on which the `<` of `<=` is reported for a `>`, and the forward search does not start from it |
| AngleTheorems.OperatorIsTakenForAngle | cpplint.py:1520-1522 | a concrete line on which the `>` of `operator>` is reported for a `<` |
| AngleTheorems.UnpushedAngleIsIgnored | cpplint.py:1484-1494 | from a `<` that is not put on the stack, the search is the one from the next character with an empty stack |
| AngleTheorems.UnpushedAngleIsAnsweredByParenthesis | cpplint.py:1545-1549 | a concrete `<` whose reported partner is a parenthesis |
| AngleTheorems.SkippedAngleIsAnsweredByParenthesis | cpplint.py:1665-1669 | a concrete `>` whose reported partner is a parenthesis |
| ScannerTexts.EndsWithOperatorMeans | cpplint.py:1492 | the test for `operator` accepts exactly a text that is anything not ending in a word character, the word `operator`, and white space |
| ScannerTexts.CharacterClasses | cpplint.py:1481-1521 | which characters are white space, word characters, openers and closers, by their codes |
| ScannerTexts.FlippedBrackets | cpplint.py:1507-1509 | which bracket closes which |
| ScannerTexts.PushesMeans | cpplint.py:1484-1497 | a `<` goes on the stack iff it is not behind a `<` nor behind such a text |
| ScannerTexts.PopsMeans | cpplint.py:1516-1530 | a `>` counts iff it is not behind a `-`, and the text up to one character before it does not end with `operator` |
| ScannerTexts.SkipsTwoMeans | cpplint.py:1610-1625 | to the left exactly `->`, `<<`, `>=` between white space, and a `>` behind `operator` are read together with the character before |
| ScannerTexts.OperatorLessIsPassed | cpplint.py:1492-1494 | behind `operator` and white space, with any stack, the scan to the right goes on as if the `<` were not there |
| ScannerTexts.OperatorGreaterIsPassed | cpplint.py:1520-1522 | so it does at a `>` when one more character stands between it and `operator` |
| ScannerTexts.OperatorGreaterIsPassedBack | cpplint.py:1614-1618 | the scan to the left goes on as if a `>` behind `operator` were not there |
| ScannerTexts.OperatorShiftPops | cpplint.py:1486-1494 | of a `<<` behind `operator` only the second counts, and it takes an open `<` off the stack, giving up if that was the last |
| ScannerTexts.ArrowIsPassed | cpplint.py:1520-1618 | both scans go on behind an arrow with the stack they had |
| ScannerTexts.ShiftIsPassed | cpplint.py:1486-1625 | both scans go on behind a `<<` with the stack they had, except that the one to the right gives up if nothing was open |
| ScannerTexts.GreaterEqualIsPassedBack | cpplint.py:1614-1618 | the scan to the left goes on behind `>=` between white space with the stack it had |
| ScannerTexts.NoSearchFromComparison | cpplint.py:1568-1569 | from `<<` and `<=` nothing is searched |
| ScannerTexts.SemicolonEndsAngles | cpplint.py:1531-1658 | in both directions a `;` takes off every angle since the last bracket, and ends the search if there is no bracket |
| ScannerTexts.CloserEndsAngles | cpplint.py:1498-1515 | a closing bracket takes off every angle since the last opener, and then matches that one or gives up |
| ScannerTexts.OpenerEndsAngles | cpplint.py:1633-1650 | the same to the left |
| ScannerTexts.OperatorLessInside | cpplint.py:1479-1541 | an angle around text with one `operator<` and a character more is answered by the `>` behind it |
| ScannerTexts.OperatorLessExample | cpplint.py:1492-1494 | a concrete line without parentheses whose answer depends on `operator<` |
| TextInside.GetTextInside | cpplint.py:4526-4551 | returns the text up to the place where the line scanner, started on the bracket with an empty stack, stops, and None iff that scanner finds none |
| TextInside.MatchersAgree | cpplint.py:4536-4551 | the stack of expected closers and the stack of openers reach their ends at the same character |
| CommentRemoval.RemoveMultiLineComments | cpplint.py:1339-1352 | the in-place pass leaves the lines, and reports the error, of the function `Removed` |
| CommentRemoval.FindNextMultiLineCommentStart | cpplint.py:1311-1319 | the first line from a given one on that opens a comment and does not close it |
| CommentRemoval.FindNextMultiLineCommentEnd | cpplint.py:1322-1328 | the first line from a given one on that ends with the end mark |
| CommentRemoval.RemoveMultiLineCommentsFromRange | cpplint.py:1331-1336 | blanks exactly the lines of the range |
| CommentRemoval.RemovalMeansCovered | cpplint.py:1339-1352 | a line is blanked iff a line-by-line automaton has it inside a comment that ends; all others are untouched; an error iff the automaton ends inside a comment, naming the line that opened it |
| CommentRemoval.NoStartIsLeft | cpplint.py:1339-1352 | without an error no line is left that opens a multi-line comment |
| CommentRemoval.RemovalIsIdempotent | cpplint.py:1339-1352 | a second pass changes nothing and repeats the verdict, unterminated comments included |
| CommentRemoval.CppCommentsAreRemoved | cpplint.py:1311-1352 | both results for the start and end tests of cpplint |
| CommentTests.EndsMeans | cpplint.py:1325 | the end test accepts exactly a text, the end mark, and white space |
| CommentTests.StartsMeans | cpplint.py:1314-1317 | the start test accepts exactly white space, the start mark, and a rest without an end mark |
| CommentTests.StripCuts | cpplint.py:1314-1325 | stripping a line leaves what stands between two stretches of white space and does not start or end with one |
| CommentTests.StrippedCharacters | cpplint.py:1314-1325 | which characters `strip()` takes off a Unicode string |
| CommentTests.CommentIsBlanked | cpplint.py:1339-1352 | behind lines that open no comment, every line from one that opens a comment to the first that ends with the mark becomes `/**/`; the lines before are untouched, and the lines and the verdict behind are those of the rest alone |
| CommentTests.UnclosedComment | cpplint.py:1345-1350 | without such a last line all lines stay and the number of the opening line is reported |
| CommentTests.LinesWithoutComment | cpplint.py:1342-1344 | lines that open no comment stay, and nothing is reported |
| CommentTests.TwoLineComment | cpplint.py:1339-1352 | a concrete comment of two lines becomes two blank lines |
| NestingModel.Flattening | cpplint.py:2424-2457 | for any step function, state and well-nested conditionals: the final stack is the one the first branches build with no preprocessor, and the checkpoints are as before |
| NestingModel.EveryRunKeepsTheLiveStack | cpplint.py:2403-2457 | for any sequence of lines, unbalanced directives included: the machine has in hand the stack that the live lines alone build, on the stack or in the outermost checkpoint in force |
| NestingModel.BalancedBracesRestore | cpplint.py:2583-2622 | when the innermost block has its brace, a rest of the line with balanced braces (and any `;` and `)`) gives the very same stack back |
| NestingModel.DeclarationIsClosed | cpplint.py:2590-2617 | a declaration that waits for its brace is taken off by a `;` or `)`, or by `{`, balanced text and `}`, and the blocks under it are as before |
| NestingModel.ClosedClassLeavesNoTrace | cpplint.py:2530-2622 | a line that announces a class, or declares and closes it, leaves nothing but its parenthesis count on the stack |
| NestingModel.DirectiveKeepsResume | cpplint.py:2424-2457 | no directive changes the stack the machine will resume from, and each opens, marks or closes exactly one conditional |
| BranchTheorems.EveryBranchStartsAfresh | cpplint.py:2424-2439 | for any step function, state, and well-nested earlier branches: inside a branch the stack is the one from before the `#if`, changed by the lines of this branch alone |
| BranchTheorems.EveryRunIsInItsBranches | cpplint.py:2403-2457 | for any sequence of lines, unbalanced directives included: the stack is the one that the lines of the current branches build, and every checkpoint holds the stacks from before its `#if` and its first `#else` |
| BranchTheorems.SecondDeclarationReplacesFirst | cpplint.py:2406-2412 | in the documented example the declaration in the `#else` branch does not see the one in the first |
| LineTheorems.DeclaredNamespaces | cpplint.py:2510-2526 | a line with namespaces and no class puts one block per name on the stack, in order, open iff its brace is on the line, and then reads its braces |
| LineTheorems.OpenedNamespacesStay | cpplint.py:2510-2526 | if all have their brace and the rest is balanced, the stack is as before, with its parentheses counted, and those blocks |
| LineTheorems.NamespacesAreClosed | cpplint.py:2618-2622 | as many closing braces on a later line give the old stack back |
| LineTheorems.UnopenedNamespaceIsDropped | cpplint.py:2606-2617 | a namespace without its brace is taken off by a semicolon, and the open ones stay |
| LineTheorems.NextSemicolonDrops | cpplint.py:2606-2617 | so is any declaration that waits for its brace, by a later line, which changes nothing else |
| LineTheorems.WhichClassIsAccepted | cpplint.py:2537-2552 | a class counts iff it is no template argument and stands outside parentheses, which behind a namespace of its line it always does |
| LineTheorems.OpenedClassStays | cpplint.py:2537-2605 | a class that stays open is one block on top, with the access of its label or else of `class` or `struct`, derived iff there is a bare colon |
| LineTheorems.PendingClass | cpplint.py:2537-2580 | the same block before its brace |
| LineTheorems.ArgumentClassIsIgnored | cpplint.py:2537-2550 | a class within parentheses or template arguments leaves the stack of the line without it |
| LineTheorems.OpenedBlocksStay | cpplint.py:2590-2605 | inside an open block every brace that is not closed leaves one block, for `extern "C"`, for inline assembly, or a plain one |
| LineTheorems.QuietLinesAddUp | cpplint.py:2483-2581 | over any lines without declarations and braces only the innermost block changes: parentheses are summed up, the last label is its access, it is derived iff a bare colon came while it waited, and it is in assembly iff a line entered that and none since closed all parentheses |
| NestingState.NestingState.UpdatePreprocessor | cpplint.py:2403-2457 | on objects, with deep copies and the uncopied restore at `#endif`, the state becomes what the value machine computes |
| NestingState.NestingState.SetTop | cpplint.py:2486-2505 | assigning to fields of the innermost block changes that block and no checkpoint |
| NestingState.NestingState.UpdateStack | cpplint.py:2483-2622 | parentheses, inline assembly, namespaces, classes, access and braces of one line change the live stack as `StepLine` says and nothing else |
| NestingState.NestingState.Update | cpplint.py:2460-2622 | a whole line, directive first, and the remembered previous top |
| NestingState.NestingState.UpdateAll | cpplint.py:2460-2622 | a whole file: the objects represent what the value machine computes |
| NestingState.NestingState.UpdateText | cpplint.py:2403-2622 | a file with well-nested conditionals leaves the live blocks of its first branches |
| NestingState.NestingState.CheckpointsAreSeparate | cpplint.py:2427-2454 | in every reachable state the live stack and all saved stacks are made of different objects |
| NestingState.DeepCopy | cpplint.py:2427-2439 | the copy has the same values and only new, different objects |
| Values.LessIsTotalOrder | src/lib/storage/dictionary_column.cpp:25-28 | the order of the values, strings included, is a strict total order |
| Values.TypeCast | src/lib/type_cast.hpp:38-56 | a cast gives a value of the type asked for, and is the identity on one that has it |
| OrderTheorems.StringLessMeans | src/lib/storage/dictionary_column.cpp:26 | a string is smaller iff it is a proper beginning of the other, or smaller where they first differ |
| OrderTheorems.DictionaryAscends | src/lib/storage/dictionary_column.cpp:25-28 | the dictionary of a column of one type holds each of its values once, ascending in the order of that type |
| OrderTheorems.ScanIsInOrder | src/lib/storage/dictionary_column.cpp:84-108 | comparing ids with the two bounds decides `<`, `<=` and `==` of the element type: numbers by size, strings by their first difference |
| OrderTheorems.BoundsSplit | src/lib/storage/dictionary_column.cpp:84-108 | the entries before the lower bound are the smaller ones, those before the upper bound the ones not greater |
| OrderTheorems.LowerBoundOfTwo | src/lib/storage/dictionary_column.cpp:84-108 | in the int column 1, 2 the lower bound of 2 is 1 and its upper bound is invalid |
| Dictionary.Build | src/lib/storage/dictionary_column.cpp:25-28 | sort, unique and erase leave a strictly increasing sequence of exactly the values |
| Dictionary.Sort | src/lib/storage/dictionary_column.cpp:26 | a sorted permutation |
| Dictionary.Unique | src/lib/storage/dictionary_column.cpp:27-28 | of a sorted sequence, strictly increasing with the same elements |
| Dictionary.LowerBound | src/lib/storage/dictionary_column.cpp:43 | binary search returns the first position not less than the value |
| Dictionary.UpperBound | src/lib/storage/dictionary_column.cpp:102 | binary search returns the first position greater than the value |
| Dictionary.BoundsOfAny | src/lib/storage/dictionary_column.cpp:84-108 | the bounds of a value are one apart, around it, if it is an entry, and equal if not |
| Dictionary.DictionaryIsUnique | src/lib/storage/dictionary_column.cpp:25-28 | the dictionary is determined by the set of values |
| AttributeVectors.FittedAttributeVector.Create | src/lib/storage/fitted_attribute_vector.hpp:16-25 | refuses exactly the sizes above the largest number of the width |
| AttributeVectors.FittedAttributeVector.Set | src/lib/storage/fitted_attribute_vector.hpp:32-37 | below the size it stores the narrowed id at that position only, above it refuses and changes nothing; at the size itself the write is undefined |
| AttributeVectors.FittedWidthIsSafe | src/lib/storage/dictionary_column.cpp:30-39 | the chosen width holds the size, stores every id exactly, and keeps ids apart from the narrowed invalid id |
| OrderTheorems.NarrowestWidth | src/lib/storage/dictionary_column.cpp:30-39 | no narrower width has a largest number above the number of rows |
| OrderTheorems.LargestNumbers | src/lib/storage/dictionary_column.cpp:30-39 | the largest numbers of 8, 16 and 32 bits, the last of which is the invalid id |
| Columns.EncodedRow | src/lib/storage/dictionary_column.cpp:30-49 | every stored id is exact in spite of narrowing, below the dictionary size and the largest number of the width, and names the value of its row |
| Columns.CompressionIsLossless | src/lib/storage/dictionary_column.cpp:18-62 | a compressed column has the rows of the original |
| Columns.DecodingIsInjective | src/lib/storage/dictionary_column.cpp:18-62 | a canonical encoding is the encoding of its rows |
| Columns.EncodingIsCanonical | src/lib/storage/dictionary_column.cpp:25-49 | an encoding has a strictly increasing dictionary, every entry of which is used |
| Columns.IdScanIsExact | src/lib/storage/dictionary_column.cpp:84-108 | comparing ids with the two bounds decides `<`, `<=` and `==` of row and search value, also when a bound is the invalid id |
| Columns.EncodingPreservesOrder | src/lib/storage/dictionary_column.cpp:41-49 | ids are ordered, and equal, exactly as the values of the rows |
| Columns.IdsAndValuesCorrespond | src/lib/storage/dictionary_column.cpp:80-108 | ids and values are in bijection through `lower_bound` and `value_by_value_id`; the bounds meet iff the value is absent |
| Columns.BoundIdsAreMonotone | src/lib/storage/dictionary_column.cpp:84-108 | both bounds grow with the value, the invalid id included |
| ColumnStore.DictionaryColumn.FromColumn | src/lib/storage/dictionary_column.cpp:18-50 | succeeds exactly on a value column of the type that is neither empty nor too long, and then is its encoding |
| ColumnStore.DictionaryColumn.GetAt | src/lib/storage/dictionary_column.cpp:58-62 | the value that the id of the row names |
| ColumnStore.DictionaryColumn.LowerBoundOf | src/lib/storage/dictionary_column.cpp:85-92 | the id of the first value not less, or the invalid id |
| ColumnStore.DictionaryColumn.UpperBoundOf | src/lib/storage/dictionary_column.cpp:101-108 | the id of the first greater value, or the invalid id |
| ColumnStore.DictionaryColumn.ValueByValueId | src/lib/storage/dictionary_column.cpp:80-82 | the entry, or a failure beyond the dictionary |
| ColumnStore.ValueColumn.Append | src/lib/storage/value_column.cpp:25-27 | the cast value at the end, or no change without a cast |
| ColumnStore.ValueColumn.At | src/lib/storage/value_column.cpp:17-22 | the value, or a failure beyond the end |
| Storage.Chunk.AddColumn | src/lib/storage/chunk.cpp:17-22 | adds the column unless its size differs from the reported size of a chunk with columns |
| Storage.Chunk.Append | src/lib/storage/chunk.cpp:24-29 | refuses a wrong number of values; otherwise appends column by column up to the first refusal |
| Storage.Chunk.Size | src/lib/storage/chunk.cpp:35-42 | the size of the first column in 32 bits, 0 without columns |
| Storage.Table.constructor | src/lib/storage/table.cpp:21 | a new table has one chunk without columns |
| Storage.Table.AddColumnDefinition | src/lib/storage/table.cpp:23-28 | the outcome and the whole new state |
| Storage.Table.AddColumn | src/lib/storage/table.cpp:30-40 | the outcome and the whole new state, half-done calls included |
| Storage.Table.Append | src/lib/storage/table.cpp:42-47 | the outcome and the whole new state, half-done calls included |
| Storage.Table.CreateNewChunk | src/lib/storage/table.cpp:49-57 | an empty column for every definition |
| Storage.Table.CompressChunk | src/lib/storage/table.cpp:59-76 | the outcome and the whole new state, by building beside and swapping |
| Storage.Table.RowCount | src/lib/storage/table.cpp:80-86 | the sum of the 32-bit chunk sizes in 64 bits |
| Storage.Table.ColumnIdByName | src/lib/storage/table.cpp:90-98 | the first position with the name among those the 16-bit count covers |
| Storage.Table.Call | src/lib/storage/table.cpp:21-76 | any one of the calls does to the objects what it does to the value-level table |
| Storage.Table.CallAll | src/lib/storage/table.cpp:21-76 | any sequence of calls, refused and half-done ones included, leaves the objects representing what the value-level run computes |
| Storage.Table.Build | src/lib/storage/table.cpp:21-76 | table objects built by allowed calls are sound and hold exactly the rows appended |
| TableTheorems.StepKeepsSoundIffAllowed | src/lib/storage/table.cpp:21-76 | a call on a sound table leaves it sound iff it is allowed; sound means rectangular chunks of the defined types, within the chunk size, compressed only if exactly full |
| TableTheorems.AddColumnKeepsSound | src/lib/storage/table.cpp:30-40 | adding a column keeps the table sound iff it is refused by the definition, or is next in order with all chunks empty, or the first chunk refuses it; the call succeeds exactly when every chunk is empty and the name is pending with the same type, or new with fewer columns than the bound |
| TableTheorems.AppendKeepsSound | src/lib/storage/table.cpp:42-47 | appending keeps the table sound iff no definition is pending when a chunk is created, and every value has a cast or the first has none |
| TableTheorems.AppendKeepsChunk | src/lib/storage/chunk.cpp:24-29 | a cast that fails behind the first column leaves the chunk ragged |
| TableTheorems.NewChunkKeepsSound | src/lib/storage/table.cpp:49-57 | a new chunk keeps the table sound iff no definition is pending |
| TableTheorems.CompressionIsAllOrNothing | src/lib/storage/table.cpp:59-76 | succeeds exactly on a full plain chunk of a finite size below the limit, encoding every column; otherwise nothing changes; other chunks are never touched |
| TableTheorems.NamesStayDistinct | src/lib/storage/table.cpp:23-40 | no call makes a column name ambiguous |
| TableTheorems.ColumnsAreFoundByName | src/lib/storage/table.cpp:90-98 | with distinct names every column is found under its name |
| TableEffects.NamesAreFound | src/lib/storage/table.cpp:90-98 | a name is found at its first position, and is missing iff it is not there; with 65536 columns none is found |
| TableEffects.DefinedColumnIsFound | src/lib/storage/table.cpp:23-28 | a definition succeeds iff the name is new, and is then found at the end with its type, pending, and nothing else has changed |
| TableEffects.DefinedColumnIsAdded | src/lib/storage/table.cpp:23-40 | after a definition `add_column` succeeds iff it asks for the defined type and every chunk is empty |
| TableEffects.AddedColumn | src/lib/storage/table.cpp:30-40 | a column that was added is the one under its name, pending before, of the type asked for, with one empty column more in every chunk |
| TableEffects.ContradictionIsRefused | src/lib/storage/table.cpp:33-34 | a call with another type, or for a column that exists, changes nothing |
| TableEffects.AppendCreatesChunk | src/lib/storage/table.cpp:42-47 | an append creates a chunk iff the chunk size is finite and the last chunk holds that many rows |
| TableEffects.CreatedChunk | src/lib/storage/table.cpp:49-57 | a new chunk has an empty column of the right type for every definition |
| TableEffects.StoredValue | src/lib/type_cast.hpp:38-56 | a value of the type of its column is stored as it is, any other as what it converts to |
| TableEffects.CompressionSucceedsIff | src/lib/storage/table.cpp:59-76 | on any table, sound or not, compression succeeds iff the chunk has exactly the finite chunk size and all its columns are plain, of the defined types and as long as the first, which is within the limit; then the chunk holds their encodings, else nothing changes |
| TableEffects.CountersAreCut | src/lib/storage/chunk.cpp:33-42 | column counts, chunk sizes and row counts are reduced to 16, 32 and 64 bits |
| TableRows.StepRefinesRows | src/lib/storage/table.cpp:42-87 | an allowed call keeps the sequence of rows, followed by the cast row if it stored one |
| TableRows.EveryAllowedRunIsSound | src/lib/storage/table.cpp:21-76 | every allowed run from a new table ends in a sound table whose rows are those appended, in order |
| TableRows.AppendNeverReachesCompressed | src/lib/storage/table.cpp:42-47 | the chunk that an append writes to has only value columns |
| TableRows.CompressionKeepsRows | src/lib/storage/table.cpp:59-76 | compressing changes no row |
| TableRows.RowCountIsNumberOfRows | src/lib/storage/table.cpp:80-86 | `row_count` is the number of rows iff that number fits in 64 bits |
| RowAddresses.AddressesAreInRowOrder | src/lib/types.hpp:40-52 | in any table, whatever the sizes of its chunks, the lexicographic order of two row ids is the order of the rows they name, and different ids name different rows |
| RowAddresses.RowIsAtItsAddress | src/lib/types.hpp:40-52 | the row with the number of a row id is the one stored at that chunk and offset |
| RowAddresses.RowIsFoundByDivision | src/lib/storage/table.cpp:42-47 | if no row stands behind a chunk that is not full, row `r` is what is stored at chunk `r / c`, offset `r % c` |
| RowAddresses.RowHasAddress | src/lib/types.hpp:40-52 | every row has a row id |
| RowAddresses.RowsAreAddressedByDivision | src/lib/storage/table.cpp:42-47 | every row `r` is at chunk `r / c`, offset `r % c`, iff no row stands behind a chunk that is not full |
| RowAddresses.ChunkCountIsCeiling | src/lib/storage/table.cpp:42-47 | such a table has just as many chunks as its rows need, and at least one, iff all but the last are full and only a first one is empty |
| RowAddresses.StepSizes | src/lib/storage/table.cpp:42-76 | an allowed call creates a chunk exactly if it is `create_new_chunk` or an append to a full table, and only the last chunk grows, by the row stored |
| RowAddresses.StepKeepsCompact | src/lib/storage/table.cpp:42-76 | after an allowed call rows are at quotient and remainder iff they were before and no row was stored behind a chunk that is not full |
| RowAddresses.StepKeepsPacked | src/lib/storage/table.cpp:42-76 | an allowed call keeps a packed table packed iff it is not `create_new_chunk` and not an append refused on a full table |
| RowAddresses.RunKeepsPacked | src/lib/storage/table.cpp:42-76 | a packed table is packed all through an allowed run iff no call of the run leaves an empty chunk |
| RowAddresses.EveryRunIsAddressed | src/lib/storage/table.cpp:21-76 | after any allowed run from a new table, the appended rows are at quotient and remainder iff none was stored behind a chunk that was not full; and the table is packed iff every `create_new_chunk` came when the last chunk was full and the last chunk did not stay empty |
| RowAddresses.AppendedRowsAreFoundByDivision | src/lib/storage/table.cpp:42-47 | if appends alone created chunks, every appended row is stored at quotient and remainder of its number, whatever was refused or compressed; and there are just as many chunks as needed iff the table is packed, as it is if no append was refused on a full table |
| RowAddresses.RefusedAppendLeavesEmptyChunk | src/lib/storage/table.cpp:42-47 | an allowed append to a full table is refused iff there is no row to store, and then leaves an empty chunk, the same rows, and no packed table |
| TableExamples.ColumnIsAddedInPart | src/lib/storage/table.cpp:30-40 | a table built by allowed calls on which `add_column` fails and leaves chunks of different widths |
| TableExamples.RowIsStoredInPart | src/lib/storage/chunk.cpp:24-29 | a table built by allowed calls on which an append fails and leaves columns of different sizes |
| TableExamples.RefusalLeavesChunk | src/lib/storage/table.cpp:42-47 | an allowed run whose refused append leaves an empty chunk |

## Left out

- Values.TypeCast: the conversions between types, which a library does, are an arbitrary partial function.
- AttributeVectors.FittedAttributeVector.Set: says nothing about the state after the undefined write at the index equal to the size.
- AttributeVectors.FittedWidthIsSafe: states widths as numbers; overwriting freed or uninitialised memory is not modelled.
- Storage.Table.RowCount: `chunk_count`, which cuts the number of chunks to 32 bits, is not modelled.
- The regular expressions in `NestingState.Update` and the scan for template arguments: their results are the features of a line. The checks that only report style errors, and `check_namespace_indentation`, are not modelled.
- Floating-point values are real numbers, so there is no NaN and no negative zero; integers carry no width.
- Column types are the five known ones; what a debug or release build does with an unknown type name is not modelled.
- `std::sort`, `std::unique` and the binary searches are modelled by simple algorithms with the same contracts.
- `CleanseRawStrings` and `_CollapseStrings`: passes driven by regular expressions with no crisp promise beyond keeping the number of lines.
- `ReferenceColumn`, `TableScan`, `GetTable` and `emplace_chunk`: declared or stubbed only. The scan equivalence is proved on the bound functions.
- `StorageManager`, `Print`, `load_table`, command line and error output: maps and input/output.
- Threads, performance warnings and the lifetimes of shared pointers.
