# Bash with a line multiplexer, modelled and proved in Dafny

This project models the parts of this bash where a mistake is easy to make and hard to see, and proves what they
are for. It needs nothing but Dafny 4.11: `dafny verify dfyconfig.toml` checks all of it.

What is modelled, and the main result of each part:

* **Brace expansion and brace completion** (`BraceScan`, `BraceWords`, `BraceExpansion`, `BraceComplete`,
  `BraceSequence`, `SeqTerm`, `Quoting`, `Decimal`). Completion folds a sorted list of names into one nested brace
  word; expansion takes it apart again. For sorted lists they are inverse, for any other exactly under a condition on
  its runs. Sequence expressions expand to their terms, in larger words too.
* **Arithmetic** (`ExprSyntax`, `ExprParser`, `ExprProof`, `Evaluator`, `Numerals`, `Int64`). The precedence-climbing
  evaluator, which reads variables while it scans and assigns while it parses, computes the value of every expression
  tree in 64 bits and skips what is to be skipped.
* **Indexed arrays** (`ArraySpec`, `ElementRing`, `SparseArray`, `DenseArray`, `ArrayRuns`). The linked list with its
  roving pointer and the vector both are a map from indices, over any sequence of operations.
* **The multiplexer** (`LineTerminal`, `LineFilter`, `Screen`, `Display`, `Console`, `Multiplexer`,
  `StreamRuns`, `SelfPump`, `AutoWindow`, `WindowRuns`, `KeyRelay`). The filter is a one-line terminal that loses
  nothing; the console shows tagged lines above one owned bottom row without residue, and each stream comes out whole
  however the others are mixed in; the pump thread loses, doubles and reorders no byte, nor do the window launch and
  the keyboard relay but in two cases, each of which is stated exactly.
* **Commands** (`LoopControl`, `Interpreter`, `CommandTree`, `CommandHeap`). `break` and `continue` by global counters
  mean what structured jumps mean, tests that jump excepted as stated; copying and disposing of command trees agree on
  every block.

How it is built: code that changes state is a class or a method with the loops of the source, proved against functions
on values; what the source promises is proved about those functions. `Wrappers` and `Seqs` are shared helpers.

Where the code does something its comments do not say, the model follows the code:

* A window whose keyboard side fails before the window is up is closed without filtering what stands behind the trigger
  in the prefix (`basht.c:1031-1055`), so not everything the task wrote comes up on the console or in the window;
  `WindowRuns.NothingLost` says exactly when bytes are lost, `WindowRuns.TextLost` is such a run.
* The keyboard relay drops what is typed on a full line (`basht.c:1515-1522`); `KeyRelay.KeysAreSent` says exactly when
  the line stays true, `KeyRelay.FullLine` what a key held down leaves.
* Losing the default stream does not redraw the bottom row (`basht_display.c:281-282`); `Console.Console.StreamGone`
  says when the row is stale, `Console.StaleDefault` is such a run, and `Multiplexer.Perform` follows it over all runs.
* A tab counts as one column when the bottom row is drawn and erased (`basht_display.c:30-64`), so characters of a
  partial line can stay on the erased row: `Console.TabDrawn` says exactly when the row is tidy, `Console.TabResidue` is
  a run that leaves one. `Multiplexer.Perform` takes all runs in which what is drawn leaves the row tidy.
* A `continue` in the test of a loop is not made if the status of the test ends the loop (`execute_cmd.c:3814-3831`), as
  in `until continue` and `while ! continue`; `LoopControl.JumpInTest` says when it is.
* Room for the wrap mark is only looked for from the cursor on, not from the end of the text (`basht_filter.c:44-48`),
  which matters after inserted blanks: `LineTerminal.MarkMissed` is an input for which the mark does not fit.
  `LineTerminal.MarkMissedSince` says that this takes blanks inserted into the same line, when it was last no longer
  than where lines are broken; `LineTerminal.MarkFits` is the condition that it happens nowhere.
* Folding for completion takes what the first and the last name of a run share for a prefix of all of them. Sorting
  makes it one, but where the locale is single-byte the matches stay in the order of readline, which collates
  (`lib/readline/util.c:418`), and names come back wrong: `BraceComplete.CaseIgnored` and `BraceComplete.HyphensIgnored`
  are such lists. `BraceComplete.RoundTripIff` says exactly when all come back. Where a name is shorter than the prefix
  of its run the code reads on behind its end; the model lets any text stand there.
* Removing the last element of the vector leaves 0 as its first index (`array2.c:680`), and an empty slice of the list
  has 0 as its greatest index (`array.c:158-164`).

## Model

| member | source | states |
|---|---|---|
| BraceComplete.CompletionRoundTrip | bracecomp.c:64-181 | For every list of matches whose common prefixes only get shorter further on, as sorting leaves them: brace expansion of the text that completion leaves, each word dequoted, is the list itself: same order, duplicates and names that are prefixes of others included |
| BraceComplete.RoundTripIff | bracecomp.c:64-148 | For every list of matches, whatever its order: expanding the text that completion leaves and dequoting each word gives the matches, in order, if and only if in every run, at every depth, each name starts with what the first and the last name of the run share |
| BraceComplete.NamesUniform | bracecomp.c:64-148 | Runs are like that wherever common prefixes only get shorter further on |
| BraceComplete.CaseIgnored | bracecomp.c:150-181 | In an order that ignores case, xab, xAc, xad are completed to xa{b,c,d}, which expands to xab, xac, xad |
| BraceComplete.HyphensIgnored | bracecomp.c:150-181 | In an order that ignores hyphens, a-b, ab, a-c are completed to a-{b,,c}, which expands to a-b, a-, a-c: a name is lost |
| BraceComplete.UnorderedUniform | bracecomp.c:64-148 | The order may be another one and the condition hold all the same: ab, Ac, ad |
| BraceComplete.ReallyMungeBraces | bracecomp.c:64-148 | For every list the recursive text builder writes exactly the printed tree of the folded names (a lone name quoted, a run as prefix and group, braces around several runs at top level), and terminates although a recursive call may keep its range |
| BraceComplete.MungeItems | bracecomp.c:78-130 | The loop over the runs writes every item with its comma, and tells whether an open brace went in front |
| BraceComplete.FindRun | bracecomp.c:80-106 | The run that starts at a name, and the length of what its first and last name share |
| BraceComplete.StringGcd | bracecomp.c:47-62 | The length of the longest common prefix |
| BraceComplete.LcpIs | bracecomp.c:47-62 | The longest common prefix is pinned down by where the two strings first differ |
| BraceComplete.SortedNames | bracecomp.c:162-181 | Sorting as qsort with _strcompare leaves it makes common prefixes only shorter further on, which is what the folding relies on |
| BraceComplete.HackBracesCompletion | bracecomp.c:162-181 | The matches, sorted here in a multibyte locale and as they come otherwise, give the completion text of that list |
| BraceComplete.InOrder | bracecomp.c:150-160 | The comparison, first byte signed and the rest unsigned, is a transitive order |
| BraceComplete.ByPlace | bracecomp.c:150-160 | Strings compare as equal only if they are, else by the place where they first differ |
| BraceComplete.Qsort | bracecomp.c:169-171 | The same strings in order |
| BraceComplete.FoldMeans | bracecomp.c:64-148 | The folded names denote, in order, what is left of the names behind the prefix they share, if and only if their runs are uniform |
| BraceExpansion.ExpandPrinted | braces.c:103-293 | For every brace tree, expanding its printed form gives the list it denotes in row-major order |
| BraceExpansion.ExpandPrintedAll | braces.c:299-365 | Splitting a printed list of alternatives at its own commas gives the alternatives back, nested ones whole |
| BraceExpansion.BraceExpandText | braces.c:103-293 | The expander computes the expansion that the round trip is about, for every text, balanced or not |
| BraceExpansion.ExpandAmbleText | braces.c:299-365 | The alternatives up to the end of the text, each expanded, one after the other |
| BraceExpansion.FindBraceIn | braces.c:118-159 | The first open brace that starts a group |
| BraceExpansion.ArrayConcat | braces.c:812-873 | The full product of the two lists; the short cuts for a single empty string never differ from it, a null list gives the other one |
| BraceScan.BraceGobbler | braces.c:637-805 | Where the scan for a brace or comma stops, by level, quoting and kind of brace |
| BraceWords.ScanWord | braces.c:637-805 | The scanner walks over a printed word as a whole at any level, so it stops only at the brace or comma of its own level |
| BraceWords.ScanAll | braces.c:637-805 | Likewise over a list of alternatives, of which it counts only the commas on its own level |
| BraceSequence.MkSeq | braces.c:372-476 | Null exactly for a step of INTMAX_MIN, a span over INTMAX_MAX, or lack of memory for the vector or one of the terms; else all terms start, start + d, ..., each a 64-bit value |
| BraceSequence.FillTerms | braces.c:408-476 | The loop writes term k as start + k * step and stops with the last one that fits, or with one that there is no memory for |
| BraceSequence.Inside | braces.c:372-476 | The number of terms is the distance of the ends over the size of the step, rounded down, plus 1: the k-th is between the ends if and only if k is below it |
| BraceSequence.PaddedValue | braces.c:423-442 | Zero padding keeps the value, sign included, and gives exactly the width asked for unless the number is longer |
| BraceSequence.ZeroPad | braces.c:423-442 | The buffer holds the padded number |
| SeqTerm.SequenceInWord | braces.c:103-293 | A valid sequence expression behind escaped text and in front of any text at all: that text goes before each of its terms, and what the rest expands to behind each of those |
| SeqTerm.WrittenExpand | braces.c:500-626 | Ends and increment with either sign, white space behind the left end and in front of the increment: the word expands to the terms of the numbers that they stand for, or stays as it is |
| SeqTerm.IntegersExpand | braces.c:478-626 | For all 64-bit integers {x..y..z} expands to the numbers from x to y in steps of the size of z, in decimal; it stays as it is only if z is the least integer or the ends are too far apart |
| SeqTerm.PaddedExpand | braces.c:597-618 | Ends that are padded with zeros to the same width give terms padded to that width |
| SeqTerm.LettersExpand | braces.c:591-596 | Letters expand to the characters between them |
| SeqTerm.SequenceExpands | braces.c:133-145 | Any valid sequence expression without quoting, braces and commas expands in braces to its terms, or stays as it is if it has none |
| SeqTerm.IntegersParse | braces.c:523-618 | Integer ends and increment, with either sign and white space where the code lets it stand, are read as the numbers they stand for; leading zeros ask for padding to the longer end |
| SeqTerm.NumeralRead | braces.c:543-577 | A numeral in a text, blanks and sign in front, is read as its value, up to where it ends |
| SeqTerm.SequenceIs | braces.c:620 | Each term of such a sequence is the text of a 64-bit number, as many as the distance and the step allow |
| SeqTerm.ExpandSeqTerm | braces.c:516-626 | The terms of a sequence expression, or none if it is none, mkseq refuses or memory is lacking |
| Decimal.ItosValue | lib/sh/itos.c:40-47 | The decimal text of every integer stands for it |
| Quoting.BackslashQuote | lib/sh/shquote.c:257-306 | The quoted string, character by character as the table and position say |
| Quoting.QuoteRoundTrip | lib/sh/shquote.c:257-306 | Quoting leaves nothing special for the brace scanner, and quote removal undoes it |
| Quoting.BashDequoteFilename | bashline.c:4210-4251 | Quote removal with the three quoting states |
| Quoting.DequoteConcat | bashline.c:4210-4251 | Removal treats escaped text piece by piece |
| ExprProof.EvaluateMeans | expr.c:458-1123 | Evaluating the tokens of any tree, printed with only the parentheses its precedences need, gives its 64-bit value and the variables it leaves, or the first division or exponent error |
| ExprProof.ParseMeans | expr.c:495-1123 | The same for a tree in any place where an operand of some level may stand |
| ExprProof.SkippedHasNoEffect | expr.c:629-730 | An operand skipped by ?:, && or || changes no variable, raises no error and leaves noeval as it was |
| Evaluator.EvalExp | expr.c:458-493 | The evaluator over its global token state computes what the parsing functions say |
| Evaluator.Evaluator.ReadTok | expr.c:1318-1522 | One token on; a variable is read at once unless a plain assignment follows or evaluation is off, and looking ahead leaves no trace |
| Evaluator.Evaluator.Peek | expr.c:1380-1391 | The token behind a name, with all state put back |
| Evaluator.Evaluator.ExpComma | expr.c:495-508 | Comma expressions, as the parsing function of their level |
| Evaluator.Evaluator.ExpAssign | expr.c:510-626 | Plain and compound assignment, bound while parsing, division by zero checked before the store changes |
| Evaluator.Evaluator.ExpCond | expr.c:629-674 | The conditional operator with noeval around the branch not taken |
| Evaluator.Evaluator.ExpOr | expr.c:677-702 | Short-circuit or |
| Evaluator.Evaluator.ExpAnd | expr.c:705-730 | Short-circuit and |
| Evaluator.Evaluator.ExpLeft | expr.c:733-945 | The left-associative levels from bitwise or to multiplication |
| Evaluator.Evaluator.ExpPower | expr.c:963-986 | Right-associative power, negative exponents refused |
| Evaluator.Evaluator.ExpUnary | expr.c:988-1021 | Unary operators |
| Evaluator.Evaluator.Exp0 | expr.c:1023-1123 | Primary expressions, pre- and post-increment |
| Evaluator.IPow | expr.c:947-961 | Squaring with every product cut to 64 bits is the power modulo 2^64, for every base and exponent |
| Numerals.StrLong | expr.c:1551-1636 | The loop computes the value of a numeral or its error |
| Numerals.PlainNumeralRead | expr.c:1551-1636 | Octal and decimal numerals are their place value modulo 2^64 |
| Numerals.HexNumeralRead | expr.c:1551-1636 | So are hexadecimal ones |
| Numerals.BasedNumeralRead | expr.c:1551-1636 | So is base#digits for every base from 2 to 64 |
| Numerals.DecimalRoundTrip | expr.c:1551-1636 | Decimal text of every 64-bit value, negated when signed, reads back as itself |
| ArrayRuns.RunIsMap | array.c:192-703 | Over every sequence of insert, remove, reference, shift, rshift and copy, array and map stay equal and give the same answers |
| ArrayRuns.RunSparse | array.c:80-749 | The linked list goes through any such sequence with these answers, values, keys and count, whatever lastref was |
| ArrayRuns.RunDense | array2.c:104-765 | The vector does so for any sequence of insert, remove and reference: both representations agree, word lists included |
| ArraySpec.PutIsUpdate | array.c:515-595 | Inserting is a map update and keeps indices ascending |
| ArraySpec.UnsetIsRemoval | array.c:601-651 | Removing takes the index out of the map |
| ArraySpec.FindIsLookup | array.c:656-703 | Searching is looking up |
| ArraySpec.ShiftedAscending | array.c:192-243 | Shifting by n removes the first n elements and leaves the others at ascending, non-negative indices lowered by n |
| ArraySpec.IndexAtLeast | array.c:192-243 | The k-th index is at least k |
| ArraySpec.PopAfterPush | array.h:155-158 | array_pop after array_push gives the array back: an array is a stack |
| ArraySpec.AssignedIsListed | array.c:722-780 | A new array from a list of words lists just these words |
| SparseArray.Array.Insert | array.c:515-595 | a[i] = v, found from lastref in either direction; the return with -1 is never reached; lastref is the element set |
| SparseArray.Array.InsertSearch | array.c:551-594 | The search always stops at the index or right beside its gap, never at the head |
| SparseArray.Array.Remove | array.c:601-651 | The element with the index leaves and is returned, else null and nothing changes |
| SparseArray.Array.Reference | array.c:656-703 | The value at the index, null if there is none; only lastref moves |
| SparseArray.Array.Search | array.c:618-650 | Both searches find the index or the neighbour of its gap |
| SparseArray.Array.Unlink | array.c:620-640 | Taking an element out keeps the ring circular and ascending with right count, greatest index and lastref |
| SparseArray.Array.Shift | array.c:192-243 | The first n elements go, as a null-terminated chain that keeps their indices and values or disposed of; the rest is renumbered |
| ElementRing.DisposeChain | array.c:233-240 | Every element of a chain is freed, once |
| SparseArray.Array.RShift | array.c:250-281 | Indices rise by n behind a new element 0; the count is returned |
| SparseArray.Array.Copy | array.c:124-142 | New elements with the same contents and lastref at the same place |
| SparseArray.Array.Slice | array.c:148-166 | The elements of a range; the result is a proper array exactly if the range is not empty |
| SparseArray.Array.Flush | array.c:96-112 | An empty array |
| SparseArray.Array.ToWordList | array.c:708-720 | The values in order |
| SparseArray.Array.KeysToWordList | array.c:733-749 | The indices in order, in decimal |
| SparseArray.Array.AssignList | array.c:771-780 | Words put at 0, 1, 2, ... |
| SparseArray.FromWordList | array.c:722-731 | Null for no words, else an array of just these |
| DenseArray.Array.Insert | array2.c:632-659 | a[i] = v in the vector, grown if need be; -1 for a new element, 0 for a replaced one |
| DenseArray.Array.Remove | array2.c:665-695 | The element leaves its slot; greatest index, count and lower bound are right afterwards |
| DenseArray.Array.Reference | array2.c:700-712 | The value in the slot, null outside the bounds |
| DenseArray.Array.Expand | array2.c:88-101 | Room for the index, contents kept |
| DenseArray.Array.Resize | array2.c:68-86 | The same contents in a vector of at least the size asked for; the array stays one if and only if that is no less than its greatest index, else what is beyond is cut |
| DenseArray.Array.ToWordList | array2.c:717-734 | The values of the slots in use, in order |
| DenseArray.Array.KeysToWordList | array2.c:747-766 | Their indices, in decimal |
| LineFilter.LineBuffer.FilterBytes | basht_filter.c:55-200 | The in-place edits are those of a text with a cursor (CR, BS, K, C, D, G, P, @, X, the moved rule), and stay within the buffer whenever the wrap mark fits where a line is broken; all input is taken, or everything up to the first trigger |
| LineFilter.LineBuffer.FilterAll | basht.c:1113-1135 | Stopping and resuming at every trigger gives what filtering at one go gives |
| LineFilter.LineBuffer.Putch | basht_filter.c:37-53 | Overwrite or append at the cursor, with a forced break of a full line |
| LineFilter.LineBuffer.Final | basht_filter.c:124-180 | The final byte of a control sequence as its effect on the text, blanks inserted as far as there is room |
| LineFilter.LineBuffer.FlushLine | basht_filter.c:203-213 | A last line without newline comes out, an abandoned paint does not |
| LineTerminal.RunSplit | basht_filter.c:55-200 | Splitting the input anywhere changes neither the line nor the lines that come out |
| LineTerminal.RunClean | basht_filter.c:70-95 | No line or partial line ever holds a control character but tabs, whatever the input |
| LineTerminal.ShortFits | basht_filter.c:36-54 | Without inserted blanks no text gets longer than where a line is broken, so the wrap mark always fits |
| LineTerminal.MarkMissedSince | basht_filter.c:36-54 | Where the mark does not fit, blanks were inserted into this line when it was last no longer than where lines are broken, and it has been longer ever since |
| LineTerminal.MarkMissed | basht_filter.c:36-54 | An input on which it does not fit: a line that is just full, ten blanks inserted at its end, one more character |
| LineTerminal.RunReassembles | basht_filter.c:14-95 | Plain text comes out whole: lines, forced breaks undone, and partial line are the input split at newlines |
| Console.Console.DisplayLine | basht_display.c:208-226 | The rows that scroll up are exactly the tagged line, uncut, tabs laid out; nothing of an erased bottom row is left that was tidy; in any case the new bottom row is empty |
| Console.Console.DisplayEvent | basht_display.c:228-242 | An event is a line with the event mark |
| Console.Console.EraseBottom | basht_display.c:188-205 | As many columns as were counted are blanked and the cursor is at the start, so a tidy row is blank |
| Console.Console.Sync | basht_display.c:285-334 | Exactly what is written on the row; a tidy row stays tidy, with nothing scrolled up, if and only if what is drawn lets it, and then it shows the owner, or the default stream: tag and partial clamped below the width, tabs laid out, the cursor so many columns back as are counted behind the stream's own |
| Console.Console.DrawBottom | basht_display.c:310-333 | What fits is drawn, then the cursor is parked by backspaces |
| Console.PlainDrawn | basht_display.c:310-333 | Without tabs that is one row, with nothing beyond the columns counted and the cursor where it should be |
| Console.PlainTidy | basht_display.c:310-333 | Text without tabs always leaves the row tidy |
| Console.CursorShown | basht_display.c:310-333 | Without a tab to be seen behind it the cursor is at the column of the stream, or behind the text if that is not visible |
| Console.TabDrawn | basht_display.c:310-333 | Whatever is drawn is laid out from the start of the row, which is tidy afterwards if and only if that stays in the row and puts neither character nor cursor beyond the columns counted |
| Console.TabResidue | basht_display.c:188-205 | A run after which a character of a partial line with tabs is still on the erased row, for any stream |
| Console.Console.PartialChanged | basht_display.c:262-270 | A stream with text takes the bottom row, one without gives it up |
| Console.Console.SetOwner | basht_display.c:111-118 | The owner changes and the row will be redrawn |
| Console.Console.SetDefault | basht_display.c:91-98 | The default changes and the row will be redrawn |
| Console.Console.StreamGone | basht_display.c:273-283 | The stream is forgotten; the row stays up to date if and only if it was not the default stream showing with nothing else pending |
| Console.StaleDefault | basht_display.c:273-283 | A run after which the row still shows a default stream that is gone |
| Display.ClampCols | basht_display.c:47-64 | The longest prefix that fits into so many columns, and its width |
| Display.CountCols | basht_display.c:31-40 | The number of characters |
| Display.TagFits | basht_display.c:136-185 | A tag is printable and takes at most 112 bytes, so no line is ever cut to the output buffer |
| Screen.WrittenLaid | basht_display.c:208-226 | Text written from the start of an empty row is laid out there, tabs included |
| Screen.LaidExpanded | basht_display.c:208-226 | The rows of any line are filled with the characters of the line with its tabs expanded to their stops |
| Screen.WrittenText | basht_display.c:208-226 | Text without tabs fills rows with its characters, in order |
| Screen.FilledHolds | basht_display.c:208-226 | These rows are the characters of the line: full rows and a last one |
| Multiplexer.Perform | basht.c:1105-1222 | After any run of bytes to any stream, ends, takeovers by the relay, lines, events, owner and default changes, losses and syncs: rows, counters, owner, default and partial lines are those of the book, each line buffer is its terminal, and after a sync the bottom row is right if and only if the book does not call it stale |
| Multiplexer.Deliver | basht_filter.c:55-197 | From bytes to the screen: just the lines that the terminal model gives come up, tagged and numbered on; owner, counters and this one partial line change as the book says, all else stays |
| Multiplexer.DeliverEnd | basht_filter.c:203-213 | At the end of a stream its last line comes up and it gives up the bottom row |
| Multiplexer.DeliverTake | basht.c:1489-1499 | Enter at the relay empties the pending line of the stream, which gives up the bottom row |
| Multiplexer.LinesBounded | basht_filter.c:36-54 | Where the mark fits a line that comes up is at most as long as the buffer |
| StreamRuns.OwnLines | basht_filter.c:55-213 | In any run the lines under the tag of a stream, in order, its partial line and what the display knows of it are those of its own calls alone, however the streams are mixed |
| StreamRuns.OwnRunIsRun | basht_filter.c:55-197 | Own calls that only bring bytes are one filtering of all of them |
| StreamRuns.StreamReassembles | basht.c:1105-1222 | From an empty line on, a stream of plain text is on the display whole and in order whatever the others do: its lines, forced breaks undone, and its partial line are its bytes split at newlines |
| StreamRuns.Numbered | basht_display.c:208-217 | The lines of a task, both streams, events and typed lines together, are numbered one by one in the order in which they come up |
| StreamRuns.OwnerMidLine | basht_display.c:262-270 | Unless the user picks one, only a stream in the middle of a line owns the bottom row |
| StreamRuns.NotStale | basht_display.c:273-283 | The bottom row gets stale only when a stream goes away that is the default |
| SelfPump.PumpSafe | basht.c:450-619 | In every interleaving of pump and main thread the bytes fetched are, in order, those displayed, held by main, queued and held by the pump; chunks imply a wake byte, a wake due or a drain on its way; at rest everything is displayed |
| SelfPump.StepConserves | basht.c:450-619 | No step of either thread loses, doubles or moves a byte |
| SelfPump.ChunkList.Append | basht.c:466-485 | The bytes go behind those queued, chunks full but for the last |
| SelfPump.ChunkList.Drain | basht.c:609-618 | The whole queue is taken and handed on in order |
| WindowRuns.NothingLost | basht.c:868-1171 | Over any run of passes: a window comes up if and only if one being launched reports; as long as none does, what the filter has had, then what is pending in the prefix and in the queue, is exactly what the task wrote, if and only if no launch ended by a failing keyboard side, before the deadline and without a report, with bytes behind the trigger; out of a window nothing is left in the queue |
| WindowRuns.WindowGets | basht.c:868-1171 | Once a window is up it is sent all that was read till then, queries scrubbed, and then what the task writes; the filter gets what came before the trigger and what comes after the window; with what waits that is all the task wrote, in order; at most one launch, for a live task, with everything in the prefix |
| WindowRuns.TextLost | basht.c:1031-1055 | A run in which bytes are lost: the sequence for the alternate screen, a text behind it, and a keyboard side that fails at once |
| WindowRuns.DrainedSound | basht.c:1149-1171 | One pass keeps the account and never loses bytes but in that case |
| WindowRuns.UntilSound | basht.c:1113-1135 | Filtering what was read, trigger by trigger, keeps the account, launch or not |
| AutoWindow.Task.DrainCaps | basht.c:1149-1171 | The record of a task, its prefix filled in place, goes through any run of passes as the state does |
| AutoWindow.Task.DrainCapOut | basht.c:1092-1147 | Everything that waits is read, remembered while there is room, and filtered, unless a window is launched on the way |
| AutoWindow.Task.FilterBuffer | basht.c:1113-1135 | One buffer: filtered whole, or up to the trigger that launches a window, the rest being in the prefix |
| AutoWindow.Task.WindowTry | basht.c:868-958 | A launch only at the first breath: prefix complete, nothing displayed, no hint given; otherwise nothing changes |
| AutoWindow.Task.ShuttleWindowed | basht.c:965-1086 | A report replays the prefix and passes output on; the deadline filters the rest late; a hang-up gives the console back |
| AutoWindow.Taken | basht_filter.c:167-180 | What the filter takes ends with the first trigger, or with the input |
| AutoWindow.ScrubQueries | basht.c:838-866 | The prefix without the control sequences that end in n or c |
| AutoWindow.ScrubbedPlain | basht.c:838-866 | Text without control sequences is replayed as it is |
| KeyRelay.RelaySends | basht.c:1339-1526 | Whatever escape sequences are in between, and however the prompts change: as long as nothing is typed on a full line each Enter sends the line as edited since the last one, never its prompt, and control keys send what they stand for |
| KeyRelay.KeysAreSent | basht.c:1450-1519 | The line on the desk is all the while the keys since the last Enter with deletions done, if and only if no character is typed on a full line; and then that is what is sent |
| KeyRelay.ShortLinesFit | basht.c:1450-1519 | Lines of less than half a buffer of keys always fit, whatever the prompts |
| KeyRelay.FullLine | basht.c:1515-1522 | On a full line further characters are dropped: the line that so many keys leave |
| KeyRelay.RelaySplit | basht.c:1450-1519 | How the keys are split over reads does not matter |
| KeyRelay.RelayIsPlain | basht.c:1386-1448 | Escape sequences leave no trace in the line |
| KeyRelay.RecordsShown | basht.c:1474-1522 | Over any run of keys and changing prompts each Enter sends one line and brings up one record, and the k-th record is the prompt that the task had when the line was begun, followed by the k-th line sent |
| KeyRelay.RelayLine.RelayChars | basht.c:1450-1519 | The buffer, edited in place behind its fixed prefix, is that desk, within its capacity |
| KeyRelay.RelayLine.Serve | basht.c:1339-1526 | Over any mix of keys, in pieces as they are read, and new partial lines of the task, the buffer is that desk and the scanner its state; from an empty line on, the task gets the lines as they were edited unless a key is typed on a full line |
| KeyRelay.RelayLine.RelayPrefix | basht.c:1339-1358 | A line starts with the task's own partial, cut to half the buffer |
| KeyRelay.RelayRaw | basht.c:1592-1627 | Bytes written, console keys and signals come in the order of the keys |
| KeyRelay.PiecesAreKeys | basht.c:1592-1627 | What is written and what is withheld are together the input, in order; console keys are withheld only if asked for, signal keys always and only if they become signals |
| LoopControl.CountersAgree | execute_cmd.c:624-1180 | For every command made of sequences, &&, ||, if, for, while, until, groups and !, with jumps anywhere: unless the status of a test overrides a jump in it, the counters and early returns give the world, statuses and jump under way of the structured meaning |
| LoopControl.PlainTestsAgree | execute_cmd.c:624-1180 | A command without jumps in the tests of its loops does exactly what is meant |
| LoopControl.Exec | execute_cmd.c:635-660 | loop_level is what it was, whatever happens, and a jump under way names a loop there is: at top level both counters are zero |
| LoopControl.EachAgrees | execute_cmd.c:2989-3144 | The same for the rest of a for loop, failing bindings included |
| LoopControl.RepeatAgrees | execute_cmd.c:3795-3856 | The same for while and until, jumps in the test included |
| LoopControl.JumpInTest | execute_cmd.c:3803-3852 | When the test leaves a jump under way: one to the next iteration is made if and only if the status of the test does not end the loop; any other leaves the loop, with the old status of the body if the test ends it and that of the jump if not |
| LoopControl.ContinueEnds | execute_cmd.c:3803-3831 | `until continue` and `while ! continue` end at once, though what they mean has no end: the status of the test overrides the jump |
| LoopControl.MoreFuel | execute_cmd.c:3803-3852 | A result does not depend on how many iterations were allowed |
| Interpreter.Executor.ExecuteCommandInternal | execute_cmd.c:623-1234 | The global variables after a command are those of the model |
| Interpreter.Executor.ExecuteForCommand | execute_cmd.c:2989-3144 | So for the loop over words, expanded when it is entered, a bad identifier or binding included |
| Interpreter.Executor.ExecuteWhileOrUntil | execute_cmd.c:3795-3856 | So for the loop over a test |
| Interpreter.Executor.Dispatch | execute_cmd.c:2810-2965 | So for connections and the other commands |
| Interpreter.Executor.BreakOrContinue | builtins/break.def:62-136 | The count is cut to the loop level, a bad count leaves all loops, outside loops nothing happens |
| CommandHeap.Heap.CopyCommand | copy_cmd.c:342-435 | A tree of the same structure made of blocks that were all free before, each used once |
| CommandHeap.Heap.CopyThenDispose | dispose_cmd.c:35-205 | Disposing of a copy frees exactly what copying took: the blocks in use are those from before, the original's among them |
| CommandHeap.Heap.DisposeCommand | dispose_cmd.c:35-205 | Every block of a tree is freed, each while in use, so once |
| CommandHeap.FreshBlocks | copy_cmd.c:342-435 | Blocks that add up to the new ones in use are distinct and were not in use |
| CommandHeap.Heap.CopyWord | copy_cmd.c:55-63 | A word and its string, new |
| CommandHeap.Heap.CopyWordList | copy_cmd.c:67-84 | All words in order, new |
| CommandHeap.Heap.CopyRedirect | copy_cmd.c:113-153 | A redirection of any kind: new words for a variable and a file name, a new here-document end, descriptors as they are |
| CommandHeap.Heap.CopyRedirects | copy_cmd.c:155-167 | All redirections in order |
| CommandHeap.Heap.CopyCondCommand | copy_cmd.c:288-302 | The tree of a conditional command |
| CommandHeap.Heap.CopyForCommand | copy_cmd.c:169-181 | For and select |
| CommandHeap.Heap.CopyArithForCommand | copy_cmd.c:184-197 | Arithmetic for |
| CommandHeap.Heap.CopyWhileCommand | copy_cmd.c:247-257 | While and until |
| CommandHeap.Heap.CopyIfCommand | copy_cmd.c:259-270 | If, with or without else |
| CommandHeap.Heap.CopyCaseClauses | copy_cmd.c:98-110 | All clauses in order |
| CommandHeap.Heap.CopyCaseCommand | copy_cmd.c:234-245 | Case |
| CommandHeap.Heap.CopyGrouping | copy_cmd.c:200-232 | Group, subshell, coprocess and connection |
| CommandHeap.Heap.CopyLeaf | copy_cmd.c:273-337 | Arithmetic, conditional and simple commands and function definitions |
| CommandHeap.Heap.DisposeWords | dispose_cmd.c:263-279 | Every word of a list and its string, once |
| CommandHeap.Heap.DisposeRedirects | dispose_cmd.c:306-345 | Every redirection with just the words and strings its kind owns |
| CommandHeap.Heap.DisposeCondNode | dispose_cmd.c:215-228 | Every node of a conditional command |
| CommandHeap.Heap.DisposeClauses | dispose_cmd.c:102-112 | Every clause with its patterns and action |

## Left out

- Command, function and `${` substitution inside `brace_gobbler`, and multibyte characters in all string scanning.
- `SeqTerm.ExpandSeqTerm`: letters are those of ASCII; the theorems of `BraceExpansion` hold for any reading of sequence
  expressions, `SeqTerm.BASH` is that of the code.
- `BraceSequence.MkSeq`: interrupts are not modelled.
- Arithmetic below the level of tokens, array subscripts, variables whose values are expressions, diagnostics for bad
  lvalues, and shift counts outside 0..63, which are taken modulo 64 as the hardware does.
- `SparseArray.Array.Insert`: indices are integers without bound, so overflow at 2^63 is not modelled.
- `SparseArray.Array.Shift`: memory is not freed in Dafny; disposing walks the chain that a caller would get.
- `DenseArray.Array.Remove`: a slot holds the element itself, so the element returned shares nothing with the array.
- `array_shift`, `array_rshift`, `array_slice` of array2.c, whose sparse behaviour differs, `array_from_argv`, and the
  conversions to strings, key-value lists and patterns of both files.
- `LineFilter.LineBuffer.FilterBytes`: calls in which the wrap mark would not fit are outside its contract;
  parameters are natural numbers, so their overflow is not modelled.
- `Console.Console.Sync`: double-width characters on the screen, a changing width, `PST1` templates and
  `basht_display_clear`; a stream's line buffer is what it was at its last call on the display, which is how the
  filter leaves it.
- `Multiplexer.Perform`: only runs in which what is drawn leaves the bottom row tidy, every wrap mark fits and the
  line counters stay below the greatest int.
- `SeqTerm.SequenceExpands`: expressions that hold quotes, backslashes, dollars, braces or commas are left out.
- `SelfPump.PumpSafe`: fork handling, starting the thread, the bounded wait before a drain and the path without a
  thread.
- `AutoWindow.Task.WindowTry`: whether fifos, fork and terminal can be had is one input of a pass; the stdout filter
  is the terminal of `LineTerminal`, which `LineFilter` implements; the task's slot is not freed when it ends.
- `AutoWindow.Task.FilterBytes`: the filter's state is that of `LineTerminal.Run` also on input for which the wrap mark
  does not fit, for which the code has no room in its line buffer.
- `KeyRelay.RelayLine.RelayChars`: the task has a pty left to type at; cycling the console and history browsing are only
  recognised.
- Standard error of a task while it is windowed, window resizing, signals, pty, fork, select and fifo calls.
- Forking, pipes, redirections, traps, `set -e`, timing, `select`, `case` and arithmetic `for` in `LoopControl`; a
  simple command is any function on the world and the words of a `for` loop are another, and iterations are bounded by
  fuel that `LoopControl.MoreFuel` shows not to matter.
- `CommandHeap.Heap.CopyCommand`: the unused `ignore` members, which copying leaves unset; trees share no blocks.
