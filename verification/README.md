# Verified models of five Solaris 7 components

This project models five pieces of the Solaris 7 sources in Dafny 4.11 and proves what they
are for. `dafny verify dfyconfig.toml` checks all of it.

- **Regular expressions** (`usr/src/head/regexp.h`). `compile` turns pattern text into a byte
  program; `step` and `advance` run the program with backtracking and capture slots. The model
  keeps the byte buffer, the bracket stack and the mutable slots. It also has three independent
  readings: a pattern as a list of tokens with a spelling, a program as a list of items that
  match a text for some choice of repetition counts, and the pattern language by itself, as it
  is written in bytes and as what its pieces mean. The proofs tie text, tokens, bytes, items
  and matching together, and end at that language.
- **Alternate sectors** (`usr/src/cmd/addbadse/ix_altsc.c`). Reported bad sectors are filtered,
  sorted, compressed to intervals, merged into the table on disk and given replacement runs in
  a partition that also holds its own map and tables. The proofs give the invariant that every
  run of the program keeps, for any reported sectors and over any sequence of runs, and exactly
  when a run succeeds and with which status it ends otherwise.
- **Connect accounting** (`usr/src/cmd/acct/acctcon.c`). A log of logins, logoffs, boots and
  clock changes is turned into connect time by line and by user. The proofs are about all logs:
  what is charged from which records, when it is conserved, independence of clock changes,
  sessions that do not overlap.
- **Merging accounting files** (`usr/src/cmd/acct/acctmerg.c`). Sorted files are merged and the
  records of one user summed.
- **Repairing a login log** (`usr/src/cmd/acct/wtmpfix.c`). Two passes move the times written
  before a change of the clock.

## How the files are arranged

| files | contents |
|---|---|
| `Bytes`, `Wrappers`, `Utmp` | bytes as integers and the bit operations on them; values that may be missing; the types of login records |
| `RegexProgram`, `RegexMatch`, `RegexCaptures` | items and their byte code; what a program matches; what captures depend on |
| `RegexAdvance`, `RegexHang` | the class `Matcher` with `advance`, `step` and their loops; exactly when they return |
| `RegexText`, `RegexNumbers`, `RegexBrackets`, `RegexBuild`, `RegexSound` | tokens and their spelling; numbers in decimal; bracket sets; from tokens to items; when the items are safe to run |
| `RegexSpill`, `RegexEmit`, `RegexCompile`, `RegexWhole` | what `compile` stores behind its buffer; its buffer operations; `compile`; results from text to match, and patterns where they fail |
| `RegexPatterns`, `RegexWritten` | the pattern language by itself and what it means; that compiling and running a written pattern finds just that |
| `AltEntries`, `AltSort`, `AltCompress`, `AltMerge`, `AltSearch` | lists of intervals and the operations on them |
| `AltMap`, `AltAssign`, `AltCheck` | the sector map, replacement runs, the examination of reported sectors |
| `AltTable`, `AltRuns`, `AltOutcome`, `AltUpdate`, `AltDisk` | the invariant; runs and sequences of runs; when a run succeeds; the class `AltPart`; where the tables lie on the disk |
| `AcctRecords`, `AcctMerge`, `AcctMerger` | records and their order; the merge as a function and its laws; the class `Merger` |
| `AcctCon`, `AcctClock`, `AcctSessions`, `AcctLog`, `AcctBoot`, `AcctCounts`, `AcctCharged`, `AcctConnect` | the state machine and its balance; clock changes; sessions; what the log alone decides; what a boot charges; counts and exit code; when a session is charged from its login on; the class `Connect` |
| `WtmpChanges`, `WtmpFix`, `AcctPipeline` | what the repair is to do; the linked list of intervals and the class `Fixer`; the repair and connect accounting one behind the other |

Code that changes things step by step is written as methods on arrays and objects; each is
proved against a function of its inputs, and the laws are proved about that function. An exit
of the program is a status or an error result.

Places where the code does not do what one would expect of it are stated as lemmas with the
exact condition beside them:

- `compile` may store one byte behind the buffer it was given (`LetterSpills`): it checks for
  room for one byte before items of two. `SpillsIff` gives the exact condition, `SpillFails`
  says that no program results, and the contract of `Compile` that nothing else behind the
  buffer is touched. For this the array `buf` is the memory from the start of the caller's
  buffer on, and `endbuf` an index in it.
- A text that starts with a caret meant as a character compiles to an anchor (`CaretIsAnchor`),
  and a text without tokens to nothing (`NothingCompiles`). `SpelledCompiles` says exactly when
  the spelling of a token list compiles to its items.
- An interval behind a group compiles though `advance` has no case for it
  (`MisplacedInterval`); `IntervalsDecide` gives the condition.
- A back-reference to a group that is still open is accepted for nested groups
  (`NestedReference`), and then reads what an earlier call left (`NestedReadsStale`);
  `ReferenceTest`, `RefsDecide` and `UnnestedRefsClosed` say when the test in `compile` is
  enough.
- A starred back-reference to an empty capture never returns (`EmptyCaptureLoops`). The search
  has a third outcome for this; `SearchDecides` says exactly when each outcome arises on a
  subject, and `ReturnsIffSolid` exactly which patterns return on every subject.
- A sector listed twice gets two entries (`RepeatedSector`); `DisjointIffDistinct` gives the
  condition. The search in the table and the replacements stay correct all the same.
- A run that has only sectors of the partition to mark, and found no entries, fails
  (`FirstInside`); `NoEntriesFails` gives the exact condition.
- Merging loses a record without a name and all that is behind it in its file, and the exit
  status does not tell (`UnnamedLosesFile`). `FilesConserved` says that this is all that is
  lost, and `AllReadIffNamed` when nothing is.
- A clock change from time 0 is taken for none (`EpochIgnored`); `ChangeMovesIff` gives the
  exact condition.
- A login without a name is counted but never charged (`NamelessLost`), unless it is refused as
  too old (`NamelessRefused`); `ConservedIffNamed` gives the exact condition on the log.
- Any record of its line during a session, even one refused as too old, becomes the start of
  it: too little is charged if it is later than the login (`LoginLosesTime`), and too much if
  it is earlier (`Overcharged`). `ChargedWholeIff` says exactly when a session is charged from
  its login to its end, `ForwardChargedWholeIff` the same for a log that runs forward.
- After `wtmpfix` a session with a change of the clock in it is moved twice (`MovedTwice`);
  `TogetherCharge` says exactly which sessions come out wrong, and by how much.

## Model

| member | source | states |
|---|---|---|
| `RegexProgram.OrIsBitwise` | usr/src/head/regexp.h:24-36 | adding 1 or 3 to an opcode with clear low bits is or-ing STAR or RNGE into it |
| `RegexProgram.OpcodeIsOr` | usr/src/head/regexp.h:132-236 | the opcode of every item is that of its kind with STAR, or with RNGE, or-ed in |
| `RegexProgram.OpcodeTells` | usr/src/head/regexp.h:24-36 | an opcode byte determines the kind of item, whether it is starred and whether it has an interval, so no two kinds of item share an opcode |
| `RegexProgram.DecodeCode` | usr/src/head/regexp.h:64-293 | the byte program of every well-formed item list decodes to exactly that list: no two lists have the same program |
| `RegexMatch.SearchSound` | usr/src/head/regexp.h:336-556 | whatever the backtracking search accepts is a choice of counts that really matches, with the end and captures it reports; what it gets stuck on really is stuck |
| `RegexMatch.SearchGreatest` | usr/src/head/regexp.h:545-552 | no choice of counts that matches or gets stuck comes before the one the search ends with: it is lexicographically greatest, so matching is greedy from left to right |
| `RegexMatch.SearchDecides` | usr/src/head/regexp.h:336-556 | acceptance, rejection and non-termination each happen if and only if the foremost choice of counts is a match, does not exist, or is a stuck starred back-reference |
| `RegexCaptures.GuardedWritesFresh` | usr/src/head/regexp.h:401-409 | in a program whose references name closed groups, what is left to run writes no slot already open or closed |
| `RegexCaptures.SearchIgnoresDebris` | usr/src/head/regexp.h:401-409 | captures written by a failed attempt never influence a later one: the search gives the same result from slots that differ only where the rest of the program writes |
| `RegexCaptures.SolidNeverHangs` | usr/src/head/regexp.h:484-508 | if every starred back-reference that can be reached names a group that cannot be empty, no choice of counts is stuck |
| `RegexCaptures.SolidDecides` | usr/src/head/regexp.h:336-556 | for such patterns the search terminates and succeeds if and only if some choice of counts matches |
| `RegexHang.UnsolidHangs` | usr/src/head/regexp.h:495-508 | every other pattern has a subject, the shortest text its least counts allow, that it does not match and on which the search does not end |
| `RegexHang.ReturnsIffSolid` | usr/src/head/regexp.h:336-556 | `advance` returns on every subject from every position with any slots if and only if every starred back-reference that can be reached names a group that cannot be empty |
| `RegexAdvance.PassesIsHas` | usr/src/head/regexp.h:356-399 | the test made on the bytes of a one-character opcode, in any of the bracket encodings, is membership in the set the item stands for |
| `RegexAdvance.Matcher.GetRange` | usr/src/head/regexp.h:558-568 | `low` and `low + size` are the least and greatest count of the interval, 255 standing for 20000 above the lower bound |
| `RegexAdvance.Matcher.Scan` | usr/src/head/regexp.h:510-542 | the scan of a starred item stops one past the first character outside its set |
| `RegexAdvance.Matcher.ScanRange` | usr/src/head/regexp.h:411-482 | the countdowns fail if and only if fewer characters match than the lower bound, and else delimit exactly the ends the interval allows |
| `RegexAdvance.Matcher.Star` | usr/src/head/regexp.h:545-552 | trying every end from the longest down gives the verdict of the search, with captures and `loc2` as on the accepted path |
| `RegexAdvance.Matcher.WordScan` | usr/src/head/regexp.h:499-500 | repeating the captured word stops after its greatest number of repetitions, inside the text |
| `RegexAdvance.Matcher.BackStar` | usr/src/head/regexp.h:495-508 | the loops of a starred back-reference give the verdict of the search |
| `RegexAdvance.Matcher.Single` | usr/src/head/regexp.h:354-492 | an opcode without choice goes on exactly when the item can be taken, moves past what it takes, and sets only its own capture slot |
| `RegexAdvance.Matcher.Starred` | usr/src/head/regexp.h:510-552 | a starred one-character item gives the verdict of the search |
| `RegexAdvance.Matcher.StarredBack` | usr/src/head/regexp.h:495-508 | so does a starred back-reference; with an empty capture it does not return |
| `RegexAdvance.Matcher.Range` | usr/src/head/regexp.h:411-482 | an item with an interval gives the verdict of the search |
| `RegexAdvance.Matcher.Advance` | usr/src/head/regexp.h:336-556 | on every program with well-placed intervals whose references name closed groups, `advance` ends as the search does; on success `loc2` and the captures are those of the foremost match, on failure `loc2` is unchanged and only slots the program writes have changed; it terminates by the length of the program that is left |
| `RegexAdvance.FirstCharacter` | usr/src/head/regexp.h:311-323 | a program that starts with a literal character fails wherever that character does not stand, so the fast path skips nothing |
| `RegexAdvance.Matcher.Step` | usr/src/head/regexp.h:297-332 | `step` settles on the first position where the search does not fail, with its end and captures, whether or not the fast path is used; anchored, it tries only the start |
| `RegexAdvance.StepDecides` | usr/src/head/regexp.h:297-332 | for patterns as in `SolidDecides`, `step` finds a match if and only if there is one anywhere, and then the leftmost |
| `RegexHang.StepReturnsIffSolid` | usr/src/head/regexp.h:297-332 | `step` returns on every subject for these patterns and for no others |
| `RegexText.LexSound` | usr/src/head/regexp.h:102-291 | a token cut from pattern text is spelled by exactly the characters cut |
| `RegexText.LexComplete` | usr/src/head/regexp.h:102-291 | a token spelled in the text, and not continued by what follows, is the token cut from it |
| `RegexBrackets.PlaceElemsNames` | usr/src/head/regexp.h:157-189 | placing the pieces of a bracket one by one sets exactly the bits of the characters they name, ranges included |
| `RegexBrackets.FinishMeans` | usr/src/head/regexp.h:191-207 | a finished map, 16 or 32 bytes and negated or not, stands for exactly the characters set in it or exactly the others, without the terminator |
| `RegexBrackets.BracketMeans` | usr/src/head/regexp.h:142-211 | a bracket, narrow or wide, negated by complementing the map or by its opcode, matches exactly the characters it names or exactly the others, and never the terminator |
| `RegexBuild.WrittenIsText` | usr/src/head/regexp.h:102-128 | being written token by token at a place is the same as the joint spelling occurring there in front of the terminator |
| `RegexBuild.ParseWritten` | usr/src/head/regexp.h:64-293 | compiling the spelling of a token list builds exactly the items of its tokens |
| `RegexBuild.ParseReads` | usr/src/head/regexp.h:64-293 | conversely, every text that compiles is the spelling of some token list and builds its items |
| `RegexSound.IntervalsDecide` | usr/src/head/regexp.h:232-266 | the items are ones `advance` has cases for if and only if every interval follows a one-character item that has none yet |
| `RegexSound.RefsDecide` | usr/src/head/regexp.h:276-281 | in the items a text builds every reference stands behind the end mark of its group, as `SearchIgnoresDebris` and `advance` need, if and only if in the text no reference names a group open at that point |
| `RegexSound.ReferenceTest` | usr/src/head/regexp.h:276-281 | the comparison with `closed` admits only closed groups if and only if no open group is numbered below the count of closed ones |
| `RegexSound.UnnestedRefsClosed` | usr/src/head/regexp.h:276-281 | without nested groups the comparison is always enough |
| `RegexEmit.ReadNumber` | usr/src/head/regexp.h:237-246 | reads the number `i` whose decimal digits, with or without leading zeros, stand there, and fails exactly where no digits stand before a backslash or comma |
| `RegexNumbers.ValueDecimal` | usr/src/head/regexp.h:237-246 | any number n, written in decimal behind any number of zeros, is read as n |
| `RegexNumbers.DigitsAreDecimal` | usr/src/head/regexp.h:237-246 | every run of digits is a number so written, and the value read is that number |
| `RegexEmit.CompileInterval` | usr/src/head/regexp.h:232-266 | succeeds exactly on a well-spelled interval with bounds in order below 255 and then leaves its two bytes; the second byte is written exactly where the text says, also on the way to an error, and no byte but these two |
| `RegexEmit.CompilePieces` | usr/src/head/regexp.h:157-189 | the loop over a bracket leaves in the buffer the map of its pieces, moving to 32 bytes midway without losing bits, or fails exactly for bad text or want of room; nothing is written outside the buffer |
| `RegexEmit.CompileBracket` | usr/src/head/regexp.h:142-211 | writes the opcode and map of the bracket the text spells, nothing before them and nothing behind the buffer |
| `RegexEmit.CompileToken` | usr/src/head/regexp.h:114-291 | one turn of the `switch` changes registers and buffer as the step function says, all error exits included, and stores behind the buffer exactly the second byte of an item that starts on its last byte |
| `RegexEmit.CompileEscape` | usr/src/head/regexp.h:213-283 | the cases behind a backslash change registers and buffer as the step function says, with groups beyond nine, unbalanced ends and early references refused, and write a second byte exactly where the text has one |
| `RegexCompile.TokenMeans` | usr/src/head/regexp.h:102-292 | that step does to the bytes what the token does to the items: it fails together with it, and keeps the buffer equal to the code of the items and `lastep` at the last of them |
| `RegexSpill.SpillFails` | usr/src/head/regexp.h:102-104 | a text that stores a byte behind the buffer builds no program |
| `RegexSpill.SpillsIff` | usr/src/head/regexp.h:102-291 | a byte is stored behind the buffer if and only if the text is not empty, some first part of its tokens fills the buffer up to its last byte, and what comes next stores two bytes |
| `RegexSpill.LetterSpills` | usr/src/head/regexp.h:286-290 | a letter compiled into a buffer of one byte is stored behind it |
| `RegexCompile.CompileLoop` | usr/src/head/regexp.h:102-293 | the loop leaves the byte code of the items the text builds, or fails exactly if it builds none or they do not fit, and stores behind the buffer what `Spill` says and nothing else |
| `RegexCompile.Compile` | usr/src/head/regexp.h:64-293 | for every text the result is the byte code of the items the text builds, an error exactly if it builds none or they do not fit; an empty pattern reuses the last program untouched, or fails if there is none and the caller is not `sed`; without an error nothing behind the buffer changes |
| `RegexWhole.SpelledCompiles` | usr/src/head/regexp.h:64-293 | the printed text of a valid token list, with or without a leading anchor and up to any delimiter, compiles to that list's items if and only if they fit, every group is closed, and the first character is not a caret meant as a character, a delimiter, or missing |
| `RegexWhole.CaretIsAnchor` | usr/src/head/regexp.h:98-101 | the caret as a character: the text compiles to the anchor alone |
| `RegexWhole.NothingCompiles` | usr/src/head/regexp.h:87-95 | the list without tokens: no program is made |
| `RegexWhole.AnchorsLast` | usr/src/head/regexp.h:136-140 | in a compiled program an end-of-line anchor is the last item |
| `RegexWhole.OneReading` | usr/src/head/regexp.h:64-293 | a text is the spelling of at most one token list, the one it is cut into |
| `RegexWhole.CompiledRuns` | usr/src/head/regexp.h:64-293 | every compiled program stands for tokens spelled by its text and decodes to their items, and `advance` may run it if and only if intervals are well placed and references name closed groups |
| `RegexWhole.CompileAndStep` | usr/src/head/regexp.h:64-332 | from text to match: compiling any text whose one reading has well-placed intervals and references, and running `step` on any subject, finds a match of the items the program decodes to if and only if there is one, anchored or not, for exactly the patterns that always return; it is the leftmost, and `loc2` and the captures are those of the greedy choice there |
| `RegexPatterns.IntervalCounts` | usr/src/head/regexp.h:411-482 | an item with the interval m, or m to n, or m and more, the numbers written in decimal, may be taken exactly from m times up to the lesser of its run and n, which is m itself for m alone and m + 20000 for m and more |
| `RegexPatterns.NumbersMean` | usr/src/head/regexp.h:231-263 | an interval is refused if and only if a number in it is 255 or more or the second is less than the first; and else the two numbers are stored, the first twice if it is alone and 255 if the second is missing |
| `RegexPatterns.ItemsMean` | usr/src/head/regexp.h:336-556 | the items of any pattern of characters, classes, stars, intervals, nested groups, references and end mark match from p up to an end if and only if the pattern means so by a definition that knows no items, counts or slots: groups are words of the subject, references those words again, a starred one none or one more of them |
| `RegexWritten.PiecesSpelled` | usr/src/head/regexp.h:113-292 | the tokens of a pattern spell its text, which is given in bytes |
| `RegexWritten.ToksBuild` | usr/src/head/regexp.h:113-292 | the tokens of a pattern build exactly one item for each piece of it, or the buffer is too small, which it is not with 35 bytes for each piece |
| `RegexWritten.PatternCompiles` | usr/src/head/regexp.h:64-293 | the text of a pattern, anchored or not, compiles to the program of its items unless the buffer is too small; with 35 bytes for each piece it is not |
| `RegexWritten.PatternRunnable` | usr/src/head/regexp.h:64-293 | the one reading of such a text has well-placed intervals and references, so the matcher can run it |
| `RegexWritten.PatternFound` | usr/src/head/regexp.h:296-332 | a match is found with this program if and only if the pattern means one somewhere, at the start if anchored; it starts leftmost, and `loc1` and `loc2` are the two ends of a match the pattern means |
| `RegexWritten.UnstarredReturns` | usr/src/head/regexp.h:484-508 | a pattern without starred references passes the check that the matcher returns on every subject |
| `RegexWritten.FindPattern` | usr/src/head/regexp.h:64-332 | the same from text to result in one method: compile the bytes of a pattern, run `step` on any subject, and what is found is what the pattern means, leftmost, or nothing if it means nothing there |
| `RegexWhole.NestedReference` | usr/src/head/regexp.h:276-281 | a nested pattern text that compiles though its reference names an open group |
| `RegexWhole.NestedReadsStale` | usr/src/head/regexp.h:484-493 | whether that pattern matches depends on the end mark an earlier call left in the slot |
| `RegexWhole.MisplacedInterval` | usr/src/head/regexp.h:232-266 | a pattern text with an interval behind a group, which compiles to an item `advance` has no case for |
| `RegexWhole.EmptyCaptureLoops` | usr/src/head/regexp.h:495-508 | a pattern text, the program it compiles to, and exactly the places of a subject from which `advance` does not return |
| `AltSort.SortPass` | usr/src/cmd/addbadse/ix_altsc.c:583-595 | one pass moves the least of the remaining entries to the front by exchanges, and its flag is set only if the rest was in strict order |
| `AltSort.EntSort` | usr/src/cmd/addbadse/ix_altsc.c:574-599 | the result is sorted and a permutation, early exit included, and entries behind the list are untouched |
| `AltCompress.EntCompress` | usr/src/cmd/addbadse/ix_altsc.c:607-628 | sorted single sectors become intervals that cover the same sectors equally often, sorted by start and by end; if none was repeated no two intervals touch, so they are the maximal runs |
| `AltMerge.MergePermutes` | usr/src/cmd/addbadse/ix_altsc.c:635-670 | the merged list holds exactly the entries of both, as often as they do |
| `AltMerge.MergeOrdered` | usr/src/cmd/addbadse/ix_altsc.c:635-670 | two lists ordered by start and end that do not overlap merge into one ordered by start and end |
| `AltMerge.MergeLiveIsMerge` | usr/src/cmd/addbadse/ix_altsc.c:644-656 | passing over empty slots while merging is merging the lists without them |
| `AltMerge.EntMerge` | usr/src/cmd/addbadse/ix_altsc.c:635-670 | the buffer and the count returned are the merge of the live entries of both lists |
| `AltSearch.EntBsearch` | usr/src/cmd/addbadse/ix_altsc.c:676-712 | returns the index of an entry containing the key if there is one and -1 if and only if there is none, for every count, also when steps are skipped at the end and when entries overlap |
| `AltMap.CompressMap` | usr/src/cmd/addbadse/ix_altsc.c:498-521 | every sector has its bit, the unused bits of the last byte are clear, and no byte past the rounded-up eighth of the size is written |
| `AltMap.ExpandMap` | usr/src/cmd/addbadse/ix_altsc.c:486-493 | every cell is the bit of its sector |
| `AltMap.PackedBothWays` | usr/src/cmd/addbadse/ix_altsc.c:486-539 | for every size two maps are equal if and only if their images are: expanding a compressed map returns it, and a map has only one image |
| `AltMap.BitValues` | usr/src/cmd/addbadse/ix_altsc.c:527-541 | of the eight sectors of a byte of the map the first has the value 128 and the last the value 1 |
| `AltTable.SectorsNeeded` | usr/src/cmd/addbadse/ix_altsc.c:418-427 | map and entries are given the fewest sectors of 512 bytes that hold one bit for each sector and 12 bytes for each entry |
| `AltMap.LowestRun` | usr/src/cmd/addbadse/ix_altsc.c:545-567 | 0 only if no run of good sectors of that length lies between the bounds, and else the first sector of the lowest such run |
| `AltMap.HighestRun` | usr/src/cmd/addbadse/ix_altsc.c:545-567 | the same downwards, as the last sector of the highest run |
| `AltMap.MapAlloc` | usr/src/cmd/addbadse/ix_altsc.c:545-567 | the one-pass search with a running count finds the lowest or highest run in its direction |
| `AltAssign.AssignAltsctr` | usr/src/cmd/addbadse/ix_altsc.c:453-481 | map and table become what serving the entries in order gives, or the status is that of the first entry without a run |
| `AltOutcome.AssignMeans` | usr/src/cmd/addbadse/ix_altsc.c:459-480 | an entry without a replacement is given the highest run of good sectors of its length behind the map, and the program exits with 65 if and only if there is none; any other entry is left alone |
| `AltOutcome.AssignFailsIff` | usr/src/cmd/addbadse/ix_altsc.c:453-481 | serving a list fails if and only if for some entry, the ones before it being served, no run is left |
| `AltOutcome.GenerateFailsIff` | usr/src/cmd/addbadse/ix_altsc.c:410-451 | `gen_alts_ent` ends with 65 if and only if there are no entries, or one of them finds no run, or their table finds no place behind the map |
| `AltAssign.AssignAllSound` | usr/src/cmd/addbadse/ix_altsc.c:453-481 | serving entries changes no interval and no replacement given before, gives every entry a run that was free, keeps all runs pairwise disjoint, and marks exactly the new runs |
| `AltCheck.ChkBadAltsctr` | usr/src/cmd/addbadse/ix_altsc.c:717-747 | tells whether a sector is in use as a replacement |
| `AltCheck.ChkBadsec` | usr/src/cmd/addbadse/ix_altsc.c:141-196 | map, list and status after the loop are those of examining the sectors in order, which `ExamineOkIff` and `ExamineStatus` say in terms of the tables |
| `AltCheck.InitMarks` | usr/src/cmd/addbadse/ix_altsc.c:220-230 | the same for a new partition |
| `AltOutcome.ExamineOkIff` | usr/src/cmd/addbadse/ix_altsc.c:141-196 | on valid tables the examination succeeds if and only if every sector reported lies outside the partition, or is known to be bad, or is no replacement in use and holds neither partition table nor map nor entries |
| `AltOutcome.ExamineStatus` | usr/src/cmd/addbadse/ix_altsc.c:141-196 | else the status is that of the first other sector in the list: 66 for a replacement in use, 53 for the partition table, 54 for the map, 55 for the entries |
| `AltOutcome.InitOutcome` | usr/src/cmd/addbadse/ix_altsc.c:220-230 | on a new partition it succeeds if and only if the first sector of the partition is not reported, and else the status is 56 |
| `AltCheck.ExamineSound` | usr/src/cmd/addbadse/ix_altsc.c:141-230 | exactly the reported sectors of the partition get marked, all of them spare; of the list exactly the sectors outside it without a replacement remain, as often as reported |
| `AltTable.GenerateValid` | usr/src/cmd/addbadse/ix_altsc.c:410-481 | merging in and serving new intervals gives tables right for all known sectors, covers the old and the new sectors, and keeps every old entry with its replacement |
| `AltTable.CheckedMarked` | usr/src/cmd/addbadse/ix_altsc.c:141-196 | after the check the map marks exactly the known bad sectors and the replacements in use, and table and map still lie on good sectors |
| `AltTable.InitMarked` | usr/src/cmd/addbadse/ix_altsc.c:201-241 | the same after setting up a new partition, whose map avoids the bad sectors |
| `AltRuns.RunValid` | usr/src/cmd/addbadse/ix_altsc.c:64-77 | every successful run turns tables valid for the sectors known before into tables valid for those and the reported ones: entries in order, cover exactly the bad sectors outside, replacements distinct good sectors behind the map, map exact, all regions disjoint, old entries kept |
| `AltOutcome.RepeatKeeps` | usr/src/cmd/addbadse/ix_altsc.c:66-80 | a run that reports only sectors known to be bad leaves map and entries as they were |
| `AltOutcome.RepeatOutcome` | usr/src/cmd/addbadse/ix_altsc.c:66-80 | it fails, with 65, if it reports any and there are no entries, and else it succeeds |
| `AltRuns.EveryRunValid` | usr/src/cmd/addbadse/ix_altsc.c:64-135 | so does every sequence of runs, from a blank disk on, also when tables are set up anew between |
| `AltRuns.EntriesStay` | usr/src/cmd/addbadse/ix_altsc.c:410-481 | over any sequence of runs a replaced sector keeps its replacement |
| `AltRuns.InsteadIsSafe` | usr/src/cmd/addbadse/ix_altsc.c:453-481 | with valid tables every bad sector outside the partition has a replacement, never reported bad and in none of the table, map and entry regions |
| `AltRuns.InsteadIsInjective` | usr/src/cmd/addbadse/ix_altsc.c:453-481 | two bad sectors never share a replacement, even if sectors were listed twice |
| `AltRuns.DisjointIffDistinct` | usr/src/cmd/addbadse/ix_altsc.c:410-447 | the entries after a run are pairwise disjoint if and only if they were before and no sector that needs a replacement is listed twice |
| `AltRuns.RepeatedSector` | usr/src/cmd/addbadse/ix_altsc.c:614-627 | a run with a sector listed twice that leaves two entries for it |
| `AltRuns.NoEntriesFails` | usr/src/cmd/addbadse/ix_altsc.c:435-443 | for every valid disk the merged table is empty, so that its allocation fails and the run exits with 65, if and only if sectors were reported, the tables found have no entries, and every sector reported lies in the partition |
| `AltRuns.FirstInside` | usr/src/cmd/addbadse/ix_altsc.c:435-443 | valid tables without entries and one reported sector inside for which the run fails |
| `AltUpdate.ReportedIsFilter` | usr/src/cmd/addbadse/ix_altsc.c:342-381 | the list taken over has exactly the listed sectors of the drive behind its first track, as often as listed |
| `AltUpdate.AltPart.GetBadsec` | usr/src/cmd/addbadse/ix_altsc.c:342-381 | the list of reported sectors is that selection, block by block |
| `AltUpdate.AltPart.InitAltsctr` | usr/src/cmd/addbadse/ix_altsc.c:201-241 | sets up new tables as the run relation says, or stops with its status |
| `AltUpdate.AltPart.GetAltsctr` | usr/src/cmd/addbadse/ix_altsc.c:248-301 | the tables in core are those stored on the disk |
| `AltUpdate.AltPart.ReadAltsctr` | usr/src/cmd/addbadse/ix_altsc.c:83-135 | reads or sets up the tables and examines the list as the run relation says |
| `AltUpdate.AltPart.GenAltsEnt` | usr/src/cmd/addbadse/ix_altsc.c:410-447 | with an empty list nothing changes; else the tables are those of merging and serving, or the status is that of its failure |
| `AltUpdate.AltPart.UpdateBadsec` | usr/src/cmd/addbadse/ix_altsc.c:64-77 | for every list and disk the program either succeeds by a run to which `RunValid` applies, with the map packed for writing, or stops with the status of the step that fails |
| `AltUpdate.AltPart.WrAltsctr` | usr/src/cmd/addbadse/ix_altsc.c:307-336 | the parts written, read again, are what was in core |
| `AltDisk.WrittenReadBack` | usr/src/cmd/addbadse/ix_altsc.c:248-336 | with valid tables, after the three writes partition table, map and entries are each read back from their sectors as stored, and no marked sector has changed |
| `AltDisk.WrittenSpares` | usr/src/cmd/addbadse/ix_altsc.c:307-336 | writing the tables touches no bad sector and no replacement in use |
| `AcctRecords.LessTotal` | usr/src/cmd/acct/acctmerg.c:126-131 | of two records exactly one comes first or they are summed together, by user and name or by user alone |
| `AcctMerge.LeastMeans` | usr/src/cmd/acct/acctmerg.c:118-134 | `getleast` finds nothing if and only if all is read, and else the least current record, the first of equals |
| `AcctMerge.MergeConserves` | usr/src/cmd/acct/acctmerg.c:99-160 | for any lists of records, in order or not, and each of the eleven amounts: what is written adds up to the records summed, in all and for every user |
| `AcctMerge.TotalConserves` | usr/src/cmd/acct/acctmerg.c:140-160 | the record of totals grows by exactly the records summed |
| `AcctMerge.FilesConserved` | usr/src/cmd/acct/acctmerg.c:118-219 | for any files what they hold is what is written plus what stands from the first record without a name on, in all and for every user; so are the totals |
| `AcctMerge.AllReadIffNamed` | usr/src/cmd/acct/acctmerg.c:118-219 | nothing of the files is left out if and only if every record of every file has a name |
| `AcctMerge.NamedConserved` | usr/src/cmd/acct/acctmerg.c:99-219 | then what is written adds up to what the files hold |
| `AcctMerger.UnnamedLosesFile` | usr/src/cmd/acct/acctmerg.c:99-134 | a file that starts with a record without a name: nothing of it is written, and the exit status stays 0 |
| `AcctMerge.MergeInOrder` | usr/src/cmd/acct/acctmerg.c:99-160 | from files in order what is written is in strict order, so has one record for each user; `MergeAscends` says which order |
| `AcctMerge.MergeAscends` | usr/src/cmd/acct/acctmerg.c:99-160 | if in every file the user numbers do not fall, and names of one number rise at the first character where they differ, then in what is written the numbers rise, each once when summing by number, and else names of one number rise in the same sense |
| `AcctRecords.LessMeans` | usr/src/cmd/acct/acctmerg.c:126-130 | one record goes before another if and only if its number is lower, or the numbers are equal, names count, and its name has the lower character, or its end, where the two first differ |
| `AcctMerge.MergeSumsUsers` | usr/src/cmd/acct/acctmerg.c:140-160 | from files in order every record written has the sums of all records read of its user |
| `AcctMerge.MergeUsers` | usr/src/cmd/acct/acctmerg.c:99-160 | the users written are exactly the users read, for any files |
| `AcctMerger.Merger.GetNext` | usr/src/cmd/acct/acctmerg.c:189-219 | the current record becomes the next of its file, a record without a name ending the file, and no other file moves |
| `AcctMerger.Merger.GetLeast` | usr/src/cmd/acct/acctmerg.c:118-134 | returns the file whose current record has the lowest number, and of those the lowest name unless summing by number, and of equals the first; and none if and only if all files are read |
| `AcctMerger.Merger.SumCurr` | usr/src/cmd/acct/acctmerg.c:140-160 | takes all records like the least from the front of all files, writes their sum under its name and adds the same to the totals |
| `AcctMerger.Merger.Merge` | usr/src/cmd/acct/acctmerg.c:99-112 | for all files the output and the totals are those the laws above are about and account for the files but for what is unread; from files with rising numbers and names the output has strictly rising ones; the exit status tells of a file without records, and the merge ends |
| `AcctCon.RunBalance` | usr/src/cmd/acct/acctcon.c:264-328 | over every log the connect time of all users is that of all lines, sessions seen are those charged, open or without a name, and the sessions counted by user are the sessions charged |
| `AcctClock.AheadStep` | usr/src/cmd/acct/acctcon.c:172-215 | a record and the same record by a clock ahead by d take states that differ by d to states that differ by d |
| `AcctClock.ClockChange` | usr/src/cmd/acct/acctcon.c:180-191 | inserting a change of the clock and writing all that follows by the new clock changes no session length, line total, user total, count or error, if no change is pending and no time falls before the epoch |
| `AcctClock.EpochIgnored` | usr/src/cmd/acct/acctcon.c:183-191 | a change whose old time is 0 has no effect |
| `AcctClock.ChangeMovesIff` | usr/src/cmd/acct/acctcon.c:180-191 | a change by d moves the books by d if and only if its old time is not 0, or d is 0, or there are no lines |
| `AcctSessions.RunExact` | usr/src/cmd/acct/acctcon.c:276-328 | over every log each line's total is the time of the sessions on it, and each user has one entry, with the prime time of that user's sessions first, the rest of their time second, and their number |
| `AcctLog.RunTracks` | usr/src/cmd/acct/acctcon.c:172-328 | after every log the time and occupant of each line are those of the last records of it, boots and clock changes included |
| `AcctLog.ConservedIffNamed` | usr/src/cmd/acct/acctcon.c:285-311 | over every log connect time and sessions are conserved if and only if no login without a name is taken, one older than its line being refused |
| `AcctLog.ForwardConservedIffNamed` | usr/src/cmd/acct/acctcon.c:285-311 | on a log that runs forward without clock changes: if and only if every login on a line has a name |
| `AcctLog.NamelessLost` | usr/src/cmd/acct/acctcon.c:295-311 | a log of one login without a name, which is not conserved |
| `AcctLog.NamelessRefused` | usr/src/cmd/acct/acctcon.c:285-293 | a log with such a login that is refused, which is conserved |
| `AcctLog.ChargedSince` | usr/src/cmd/acct/acctcon.c:283-327 | a login or logoff that is taken charges exactly one session, to whoever the log says is on the line, from the last record of the line to its own time; other records of processes and refused ones charge none |
| `AcctBoot.BootCharges` | usr/src/cmd/acct/acctcon.c:192-195 | after any log a boot charges exactly one session for every line on which the log says somebody is and which does not stand later than the boot, to that user, from the time since when the line stands up to the boot, and nothing else |
| `AcctBoot.OthersChargeNothing` | usr/src/cmd/acct/acctcon.c:172-215 | records that are neither logins, logoffs nor boots charge nothing |
| `AcctBoot.RunDistinct` | usr/src/cmd/acct/acctcon.c:240-262 | over every log no line is entered twice |
| `AcctCharged.EndCharges` | usr/src/cmd/acct/acctcon.c:172-328 | whatever ends a session, the next login, a logoff or a boot, it is charged once and with no other of its line |
| `AcctCounts.RunCounts` | usr/src/cmd/acct/acctcon.c:283-327 | over every log the three counts of every line are the numbers of logins on it, of those when nobody was on it, and of logoffs on it and boots, those refused as too old left out |
| `AcctCounts.RunCode` | usr/src/cmd/acct/acctcon.c:285-292 | the exit code after a log of valid records is 0 if and only if no record was older than a line it is about, and else 1 |
| `AcctLog.LoginLosesTime` | usr/src/cmd/acct/acctcon.c:294-313 | a record of a getty or init inside a session: only the time behind it is charged |
| `AcctCharged.OccupantLoggedIn` | usr/src/cmd/acct/acctcon.c:276-328 | whoever is on a line logged in there, and nothing has ended that session since |
| `AcctCharged.ChargedWholeIff` | usr/src/cmd/acct/acctcon.c:172-328 | such a session, ended by a login, a logoff or a boot, is charged to its user, once, up to its end, and from its login, by the clock as set since, if and only if the last record of the line in between has the time of the login |
| `AcctCharged.ForwardChargedWholeIff` | usr/src/cmd/acct/acctcon.c:276-328 | from the login on forward without clock changes: no more than the session is charged, and all of it if and only if every record of the line in between has the time of the login |
| `AcctCharged.OneRecordBetween` | usr/src/cmd/acct/acctcon.c:283-294 | a session with one record of a getty or init in it is charged from the time of that record, also if that is refused as older than the login |
| `AcctCharged.Overcharged` | usr/src/cmd/acct/acctcon.c:285-292 | a session of 10 with such an older record, for which 15 are charged |
| `AcctSessions.RunConserves` | usr/src/cmd/acct/acctcon.c:264-328 | so over every log whose logins have names connect time and sessions are conserved |
| `AcctSessions.SessionsFit` | usr/src/cmd/acct/acctcon.c:276-328 | on a log that runs forward without clock changes no record is refused, sessions on a line do not overlap, and no line is charged more than the time the log covers |
| `AcctConnect.Connect.Iline` | usr/src/cmd/acct/acctcon.c:243-262 | finds the line by name or adds it, vacant, at the end |
| `AcctConnect.Connect.EnterUser` | usr/src/cmd/acct/acctcon.c:398-429 | adds to the one entry of the user, or makes it |
| `AcctConnect.Connect.LogOn` | usr/src/cmd/acct/acctcon.c:296-311 | a login ends and charges the session on the line, if any, and starts its own |
| `AcctConnect.Connect.LogOff` | usr/src/cmd/acct/acctcon.c:314-327 | a logoff ends and charges the session on the line, if any |
| `AcctConnect.Connect.UpdateLine` | usr/src/cmd/acct/acctcon.c:276-328 | line, table, sessions and status become those of the state machine |
| `AcctConnect.Connect.UpdateAll` | usr/src/cmd/acct/acctcon.c:264-271 | every line is logged off at the time of the boot, and what is charged are the sessions on all lines that are not ahead of it; `BootCharges` says which in terms of the log |
| `AcctConnect.Connect.Loop` | usr/src/cmd/acct/acctcon.c:172-215 | one record is one step of the state machine the laws are about |
| `AcctConnect.Connect.Process` | usr/src/cmd/acct/acctcon.c:106-113 | a log is a run of it |
| `WtmpChanges.BootMeans` | usr/src/cmd/acct/wtmpfix.c:260-261 | the start of the open interval is at or before a record if and only if no boot lies between the record and the change |
| `WtmpChanges.ModeMeans` | usr/src/cmd/acct/wtmpfix.c:262-267 | the counter of the mode is not 0 if and only if some run-level record has a line that starts with the bytes of `run-level 2`, and no later one a line that starts with those of `run-level S` |
| `WtmpChanges.NameCharMeans` | usr/src/cmd/acct/wtmpfix.c:203-218 | names may have letters, digits, dollar, blank, dot, underscore and dash, and else become `INVALID` |
| `WtmpChanges.CleanedMeans` | usr/src/cmd/acct/wtmpfix.c:268-285 | exactly the names with another character in them are replaced, but not in the second record of a change |
| `WtmpFix.PlainStep` | usr/src/cmd/acct/wtmpfix.c:145-159 | an ordinary record or a boot keeps the closed intervals those of the changes so far, and the open one starting at the last boot |
| `WtmpFix.PairStep` | usr/src/cmd/acct/wtmpfix.c:161-175 | so does a change, which in multi-user mode closes one interval back to the last boot |
| `WtmpFix.IntervalsMean` | usr/src/cmd/acct/wtmpfix.c:177-193 | the intervals of a complete log add to each record exactly what the changes behind it do |
| `WtmpFix.DtabList.Mkdtab` | usr/src/cmd/acct/wtmpfix.c:145-159 | in the linked list only the start in the last node moves, or a first node is made; all other nodes stay as they are |
| `WtmpFix.DtabList.Setdtab` | usr/src/cmd/acct/wtmpfix.c:161-175 | the last node is closed and a new one with the same start linked behind it, no other node being written; fails exactly without a list |
| `WtmpFix.DtabList.Adjust` | usr/src/cmd/acct/wtmpfix.c:177-193 | following the links adds the adjustments of all intervals the record lies in |
| `WtmpFix.Fixer.ScanFile` | usr/src/cmd/acct/wtmpfix.c:235-289 | fails if and only if an old time is not followed by a new one in the same file; else the list has exactly the changes of the log so far, and of the nodes there were only the last is written |
| `WtmpFix.Fixer.AdjustAll` | usr/src/cmd/acct/wtmpfix.c:107-112 | the second pass gives the repaired log |
| `WtmpFix.Fix` | usr/src/cmd/acct/wtmpfix.c:91-115 | over any files each record's time is its own plus new minus old of exactly the changes behind it that were made in multi-user mode, with no boot between; bad names are replaced and nothing else changes; multi-user mode is that a line starting with `run-level 2` came, and none starting with `run-level S` after it |
| `AcctPipeline.AloneCharges` | usr/src/cmd/acct/acctcon.c:172-328 | a session without other records of its line is charged the time elapsed by the clock as it is set during it |
| `AcctPipeline.TogetherCharge` | usr/src/cmd/acct/runacct.sh:168-194 | from the log `wtmpfix` leaves it is charged that time less the changes in multi-user mode during it, so it is right if and only if these add up to nothing |
| `AcctPipeline.MovedTwice` | usr/src/cmd/acct/runacct.sh:168-194 | behind a record of going to `run-level 2`, a login at t0 and one change by d: charged from t0 + 2d instead of t0 + d |

## Left out

- The error numbers, delimiter macros and `locs` of `regexp.h`; an error is one failure result.
- The copy of the engine in `usr/src/ucbhead/regexp.h`, which would repeat the same proofs.
- Overflow of the C `int` in the digits of an interval; numbers are exact, and bounds from 255 on are refused as in the code.
- Reading past the end of a pattern that ends in the middle of an escape or bracket: pattern and subject are texts with a terminator, and `compile` fails where it would read past it.
- RegexCompile.Compile: asks for one byte of memory behind the buffer, where the code may write; what lies there before is arbitrary. So do the methods of `RegexEmit` below it.
- RegexEmit.CompileInterval: the same byte.
- RegexEmit.CompilePieces: the same byte.
- RegexEmit.CompileBracket: the same byte.
- RegexEmit.CompileToken: the same byte.
- RegexEmit.CompileEscape: the same byte.
- RegexWhole.CompileAndStep: asks for well-placed intervals and references to closed groups, as `step` does.
- Disk and device input and output in `usr/src/cmd/addbadse`: what the disk holds is an argument, what is written a result; a read that fails after the magic number was accepted is not modelled.
- AltUpdate.AltPart.ReadAltsctr: the code trusts the tables on the disk and indexes memory by them; the contract asks that the map lies in the partition and the entries are in order, which every table this program wrote satisfies.
- AltUpdate.AltPart.UpdateBadsec: the same condition on the disk.
- AcctPipeline.TogetherCharge: is about sessions without other records of their line, in logs whose change and boot records have a line and whose old times are not 0.
- AltDisk.WrittenReadBack: the bytes of the partition table and of the entries are given; their layout is not modelled.
- AcctLog.ChargedSince: is about records of processes; `BootCharges` is about boots and `OthersChargeNothing` about the rest.
- RegexWritten.FindPattern: is about patterns in which a special character that stands for itself is quoted, a star follows a character, a class or a reference and an interval a character or a class, at most once, and references name closed groups; other texts, such as one that starts with a star, are covered by `CompileAndStep`.
- AltOutcome.RepeatKeeps: says nothing of where the entry table lies, which may move to the lowest place that is free.
- AcctCounts.RunCode: is about records that pass `valid`; a record that does not sets the code to 1.
- RegexAdvance.Matcher.Advance: asks for well-placed intervals and references to closed groups, since the code has no case for other intervals and reads slots never set for other references; `CompiledRuns` says which texts compile to such programs.
- RegexAdvance.Matcher.Step: the same condition on the program.
- Sector counts are unbounded integers; the width of `daddr_t` is not modelled.
- The SCSI remapping, ioctl and printing parts of `usr/src/cmd/addbadse`.
- Rounding of `float` and wrap-around of 16-bit counters in accounting records: amounts are exact.
- Options, the print-only mode, ASCII formats and the limit of 100 files of `acctmerg.c`; a file that cannot be opened is one without records.
- The reports and what only they use (first and last time after the run, the count of boots by reason), `valid`, `lintodev`, `namtouid` and the inside of `pnpsplit` in `acctcon.c`: users and the prime part of a time span are given functions, and the two parts of a span add up to it.
- The search tree of users in `acctcon.c` is a list without order; the order of its output is not modelled.
- The search for the next good record, the date window, signals and temporary files of `wtmpfix.c`: its input is a sequence of records in range, its temporary file a sequence.
- Letters outside ASCII in login names: `isalnum` is that of the C locale.
- `usr/src/cmd/acct/acctcms.c`, `diskusg.c`, `acctdusg.c` and `acctcon1.c`, which would only add easier members.
