# A verified model of seven utilities

This project models the hardest logic of seven programs of the repository and proves what
they are for. `dafny verify dfyconfig.toml` checks all of it.

- **diff** (`CommonSubsequence`, `DiffSort`, `DiffClasses`, `DiffStone`, `DiffHash`, `DiffMatch`,
  `DiffOutput`, `EditScript`, `UnifiedHunk`, `HunkContext`, `DiffUnified`, `Diff`). The
  Hunt-McIlroy matching engine, from the file's lines and their 32-bit hashes to the match table
  `J`, and the two loops that turn `J` into change regions, ed commands and unified hunks. The
  matching is a longest common subsequence, the edit script is a shortest one, and it rebuilds
  the new file. Without `-d` the engine tries a limited number of equal lines: it is shown what
  is still promised then, and when nothing is lost. Unified hunks show the right context.
- **patch** (`PatchForm`, `PatchBody`, `PatchRead`, `PatchApply`, `Patch`). Reading a unified
  hunk from any text, locating it, merging it into the output behind the "frozen line" frontier,
  and turning it around for `-R`: what is accepted, where each hunk goes and when the run aborts.
  `RoundTrip` runs both programs one after the other: `diff -u old new | patch old` gives `new`,
  for every context length, with every hunk at the line of its header.
- **dc** (`DcDigits`, `DcNum`, `Dc`). Base-100 numbers in a digit buffer with a cursor, against
  the integers: negation, addition, subtraction, order, multiplication with a scale, powers,
  and other bases.
- **tftp** (`Tftp`). The sender and the receiver as state machines over a network that loses,
  duplicates, delays and reorders, over all runs, and what can still be done after any loss.
- **ed** (`EdRing`). The line ring in an array and its undo log, against a plain list of lines.
- **find** (`FindGrammar`, `FindParse`, `FindProof`, `FindProgram`). The shunting-yard parser
  accepts exactly the grammar, and its tree does what the grammar means.
- **pax** (`Pax`). Extended header records that count their own digits, and their parser.

`Basics`, `Decimal` and `SeqFacts` are shared. Code that updates state in place is modelled by
classes, arrays and loops; each such method is proved against a function or predicate whose
properties are proved as lemmas.

Six properties do not hold everywhere; each is stated with the exact condition:

- `patch -R` of a diff does not always restore the old file. `pch_swap` exchanges the first
  line numbers as they are, so that a hunk without new lines lands one line too early
  (`RoundTrip.ReversedElsewhere`). It restores the old file exactly if each such hunk only
  repeats the line before it, and with context lines exactly if the new file is not empty or
  the old one is (`RoundTrip.DiffThenPatchBack`).
- A TFTP receiver returns without the last block exactly if the file has 65536 blocks and the
  last one is not empty, because block 65536 travels as block 0 (`Tftp.ReceiverReturns`,
  `Tftp.CanLoseLastBlock`). With more blocks no side ever returns.
- After a loss of every packet on the way, a transfer can still be completed exactly if the
  receiver has not returned or the sender has already been told of the last block
  (`Tftp.RecoversExactly`): a receiver that returns does not answer a repeated last block.
- A product that dc cuts down to 0 gets a negative scale exactly if an odd number of places is
  cut off a product below 10 (`Dc.MulNum`); `.1 .1 *` with scale 0 gives 0 with scale -1
  (`Dc.TinyProduct`).
- Pairs written to a pax header and read again are the same exactly if no pair has a newline or
  a NUL, no key has `=`, and every record can be counted (`Pax.WriteThenRead`). The reader takes
  a NUL in a value like any other character (`Pax.ReadBack`), and the writer, which formats with
  `%s`, cuts the value there: `a\0b` comes back as `a` (`Pax.NulIsLost`).
- `writerec` counts with an `int` that is a power of 10 above the payload length: it exists
  exactly for payloads shorter than 10^9 (`Pax.FitsInt`, `Pax.CountDigits`).

## Model

| member | source | states |
|---|---|---|
| CommonSubsequence.LcsIsUpperBound | cmd/posix/diff.c:1541-1587 | no common subsequence (strictly increasing pairs of equal values) is longer than Lcs |
| CommonSubsequence.LcsIsReached | cmd/posix/diff.c:1541-1587 | some common subsequence has length Lcs |
| CommonSubsequence.RowDone | cmd/posix/diff.c:1557-1585 | when all matches of old line i have been tried, the levels are the thresholds of i: ys[l] is the least y such that i old and y new lines have a common subsequence of length l |
| CommonSubsequence.ReachesNext | cmd/posix/diff.c:1557-1585 | when a row has tried every match that is among the first bound of its equal new lines, its levels stay at least as good as every common subsequence that keeps to such lines |
| CommonSubsequence.LcsCommonEnds | cmd/posix/diff.c:1492-1511 | taking a common prefix and suffix off both files takes their lengths off the longest common subsequence, so pruning keeps it optimal |
| CommonSubsequence.ReachesWhole | cmd/posix/diff.c:1492-1511 | levels that no such common subsequence beats between two common ends are not beaten with the ends either |
| DiffSort.Sort | cmd/posix/diff.c:1748-1776 | Shell sort leaves a permutation of entries 1..n in order of value, then serial, and touches nothing else |
| DiffSort.SortedFromNumbered | cmd/posix/diff.c:1748-1776 | a sorted permutation of a numbered file still pairs each serial with its own value, each serial exactly once |
| DiffClasses.Prune | cmd/posix/diff.c:1492-1511 | the longest common prefix and then the longest common suffix are set aside; what is left is numbered from 1 |
| DiffClasses.PrunedOnce | cmd/posix/diff.c:1492-1511 | a pair of files has one such prefix and suffix |
| DiffClasses.FewEqualFit | cmd/posix/diff.c:1546-1553 | the search bound cuts nothing short if no value occurs more often than it in the new file |
| DiffClasses.LastNotZero | cmd/posix/diff.c:1528-1537 | if 0 is not the largest value, the last sorted line does not have the value 0 that equiv writes after it |
| DiffClasses.Label | cmd/posix/diff.c:1513-1527 | each sorted old line gets the start of the class of equal new lines, 0 if there is none, and keeps its serial |
| DiffClasses.Members | cmd/posix/diff.c:1528-1539 | the member table lists the serials class by class, the first of each negated, with a negative entry after the last |
| DiffClasses.Unsort | cmd/posix/diff.c:1778-1789 | class entries go back to the place of their serial |
| DiffClasses.ClassesHold | cmd/posix/diff.c:1513-1539 | for every old line, its class entry leads to exactly the equal new lines, in ascending order, or to none |
| DiffStone.Matcher.NewCand | cmd/posix/diff.c:1589-1603 | a candidate is appended and its index returned; older ones stay |
| DiffStone.Matcher.Search | cmd/posix/diff.c:1605-1627 | the level at which y belongs: above all levels that end before y, and not above one that ends later |
| DiffStone.PredecessorOk | cmd/posix/diff.c:1562-1584 | the predecessor that the oldc/oldl update picks is the candidate that its level had before this row, although the level may have been overwritten |
| DiffStone.Matcher.Place | cmd/posix/diff.c:1562-1584 | one match of a row: candidates stay chains of equal, strictly increasing pairs and levels stay partial thresholds |
| DiffStone.Matcher.Row | cmd/posix/diff.c:1557-1585 | a whole row keeps candidates and levels, whatever the bound; all matches up to some line are tried, the first bound ones at least, and all of them if there are no more |
| DiffStone.RunTried | cmd/posix/diff.c:1557-1585 | every new line that is among the first bound of those equal to it is tried |
| DiffStone.Matcher.Stone | cmd/posix/diff.c:1541-1587 | every candidate is a chain of matches of its level's length; for every bound, no common subsequence that keeps to the first bound of equal new lines beats a level; if no old line has more equal new lines than the bound, clist[c[l]].y is the least y for every level and k is the length of a longest common subsequence |
| DiffMatch.Unravel | cmd/posix/diff.c:1629-1639 | the predecessor walk ends, and J then is a strictly increasing table of equal lines with prefix, suffix and the whole chain |
| DiffMatch.ReadHash | cmd/posix/diff.c:2196-2247 | the hash with no ignore option: 127-multiplication modulo 2^32 from 1, read as a signed value; what it tells apart is the next rows |
| DiffHash.HashIsNumeral | cmd/posix/diff.c:2196-2247 | the accumulated sum is, modulo 2^32, the number that the characters are in base 127 with a 1 in front |
| DiffHash.CollideIff | cmd/posix/diff.c:2196-2247 | two lines share a hash exactly if these numbers differ by a multiple of 2^32 |
| DiffHash.OneCharacterApart | cmd/posix/diff.c:2196-2247 | lines of equal length that differ in one character do not share a hash |
| DiffHash.ShortApart | cmd/posix/diff.c:2196-2247 | different lines of at most four characters with codes below 127 do not share a hash |
| DiffHash.ShortFiles | cmd/posix/diff.c:2196-2247 | files of such lines have no collision, and their hashes keep clear of the 0 that equiv writes |
| DiffMatch.Classify | cmd/posix/diff.c:1360-1370 | sort, equiv and unsort together: the class and member arrays tell for every old line which new lines equal it |
| DiffMatch.MatchValues | cmd/posix/diff.c:1359-1382 | the whole pipeline on values: J is strictly increasing and pairs equal values for every bound, no common subsequence that keeps to the first bound of equal new lines is longer, and it is a longest matching if no old line that prune leaves has more equal new lines than the bound |
| DiffMatch.MatchedAtMostLcs | cmd/posix/diff.c:1541-1587 | no table of equal, increasing pairs has more entries than Lcs |
| DiffMatch.Check | cmd/posix/diff.c:1641-1746 | exactly the entries whose lines really differ are dropped from J |
| DiffMatch.MatchFiles | cmd/posix/diff.c:1343-1386 | for all files and bounds J pairs equal lines in order; if no two different lines share a hash, no common subsequence that keeps to the first bound of equal new lines is longer, and none at all if no line left by prune has more equal ones |
| DiffMatch.EarlyHashes | cmd/posix/diff.c:2196-2247 | without collisions the first bound of equal lines are the first bound of equal hashes |
| DiffOutput.OutputForward | cmd/posix/diff.c:1801-1841 | although J is overwritten on the way, the regions emitted are those of the J it began with, in order: each is maximal, and the gaps between them are in step |
| DiffOutput.OutputReverse | cmd/posix/diff.c:1842-1857 | the loop for ed emits the regions of the J it began with, last first |
| EditScript.ScriptIsEdit | cmd/posix/diff.c:1801-1857 | the regions of a table of equal lines are ordered, disjoint, not empty, and leave equal lines between them |
| EditScript.ScriptUnique | cmd/posix/diff.c:1801-1857 | a table has one list of regions |
| EditScript.ScriptRebuildsNew | cmd/posix/diff.c:1801-1857 | the old file with every region a..b replaced by new lines c..d is the new file |
| EditScript.EdScriptRebuildsNew | cmd/posix/diff.c:1842-1857 | ed commands for the regions in descending order, run one after another without renumbering, have valid addresses when they run and end with the new file |
| Diff.ScriptCostsAtLeast | cmd/posix/diff.c:1541-1587 | any edit script between the files deletes and inserts at least as many lines as are not common |
| Diff.EarlyScriptCosts | cmd/posix/diff.c:1541-1587 | a script that keeps only the first bound of equal new lines costs at least what the longest matching of that kind leaves over |
| Diff.ChangeRegions | cmd/posix/diff.c:1343-1387 | the regions rebuild the new file for every bound; unless hashes collide, no script that keeps only the first bound of equal new lines is shorter, and none at all if no line left by prune has more equal ones |
| Diff.MinimalRegions | cmd/posix/diff.c:1541-1553 | with D_MINIMAL the bound never cuts the search short: the script is a shortest one unless hashes collide |
| Diff.PlainRegions | cmd/posix/diff.c:1546-1553 | without D_MINIMAL: a shortest script unless hashes collide or some line occurs more often than max(256, root of n) in the new file; even then no shorter one keeps only that many of equal new lines |
| Diff.ShortLineRegions | cmd/posix/diff.c:1541-1553 | diff -d of files of lines of at most four ASCII characters: a shortest script, with nothing assumed |
| Diff.EdScript | cmd/posix/diff.c:1842-1857 | diff -e: the commands turn the old file into the new one; read backwards they are an edit script, as short as that of the other formats |
| Diff.LoopsAgree | cmd/posix/diff.c:1801-1857 | the two loops of output emit the same regions in opposite orders |
| DiffUnified.GroupHunkDescribes | cmd/posix/diff.c:2410-2470 | for any number of merged changes and any context length, the body of a hunk is exactly what its header says: the old side is the old range, the new side the new range |
| DiffUnified.GroupShown | cmd/posix/diff.c:2410-2470 | the tags of a hunk: as many context lines before the first and after the last change as the header leaves room for, at most twice the context length between changes, and as many - and + lines as the changes cost |
| DiffUnified.Printer.Fetch | cmd/posix/diff.c:2095-2194 | lines a..b are printed with a tag |
| DiffUnified.Printer.DumpUnifiedVec | cmd/posix/diff.c:2410-2470 | the text of the hunk of the pending changes is appended and they are gone; that hunk describes the two files |
| DiffUnified.Printer.Change | cmd/posix/diff.c:1968-1996 | a change joins the pending group or closes it first; the hunks printed so far and the group stay those of the changes seen |
| DiffUnified.Printer.PrintScript | cmd/posix/diff.c:1968-1996 | all hunks together describe exactly how the files differ: they are in order, do not overlap or touch, and leave common lines between them; each begins and ends with the context length of common lines, fewer only at an end of the file, inner runs are at most twice as long, changes in different hunks are further apart, and the - and + lines are those of the changes |
| Diff.Unified | cmd/posix/diff.c:1236-1403 | diff -u prints nothing exactly if the files are equal; otherwise the text of hunks that describe how they differ, with that context; unless hashes collide their - and + lines are as few as those of any script that keeps only the first bound of equal new lines, or of any script if no line left by prune has more equal ones |
| PatchRead.Atol | cmd/posix/patch.c:1764-1773 | white space, a sign and digits are read as a number, and nothing as 0 |
| PatchRead.GetSkipLineNum | cmd/posix/patch.c:1775-1784 | the number that atol reads, refused if it is negative; only digits at the very position are skipped |
| PatchRead.ParseHeader | cmd/posix/patch.c:2142-2183 | a header line is accepted with exactly the four numbers that the next two rows are about |
| PatchForm.HeaderReads | cmd/posix/patch.c:2153-2183 | every line "@@ -", number, optional count, optional blank, "+", number, optional count, optional blank, "@", anything, is accepted with its numbers, a missing count being 1, unless a line number is out of range; leading zeros do not matter |
| PatchForm.HeaderForm | cmd/posix/patch.c:2153-2183 | whatever is accepted is such a line, in range, and its numbers are the ones read unless one is missing |
| PatchRead.Reader.RemoveSpecialLine | cmd/posix/patch.c:1786-1801 | a "\" line is skipped, any other is not |
| PatchRead.Reader.ReadBody | cmd/posix/patch.c:2187-2305 | for any text the loop accepts exactly what the next rows are about and stops where they say; the two halves in memory are the sides and tags of the body read |
| PatchForm.BodyCounts | cmd/posix/patch.c:2210-2305 | a body that is accepted has as many lines on each side as the header says |
| PatchForm.BodySound | cmd/posix/patch.c:2210-2305 | it is, line for line, the text read, with "\" lines left out and blanks put before empty lines and tabs and for =; at most three blank lines are made up, and only at the end of the patch |
| PatchForm.BodyComplete | cmd/posix/patch.c:2210-2305 | every such text with the right counts is accepted whole, also with a "\" line after any line from the last old one on |
| PatchRead.AnotherHunk | cmd/posix/patch.c:2142-2305 | for any text: no hunk if the line does not begin "@@ -", refused if header or body is, otherwise that hunk, with the first line moved up when it has no old lines, and the position after it |
| PatchForm.PrintedIsRead | cmd/posix/patch.c:2142-2305 | the text of a hunk that diff prints is read back as that hunk |
| PatchRead.SwapSides | cmd/posix/patch.c:2453-2543 | the sides of a swapped body are the other sides of the body, with + and - exchanged |
| PatchRead.PchSwap | cmd/posix/patch.c:2453-2543 | the hunk in memory becomes that of the swapped body; line numbers and counts change places as they are |
| PatchRead.SwapTwice | cmd/posix/patch.c:2453-2543 | swapping twice restores every field of the hunk |
| PatchApply.Patcher.PatchMatch | cmd/posix/patch.c:814-841 | true exactly if the old side is in the input at that line, within the file |
| PatchApply.Patcher.LocateHunk | cmd/posix/patch.c:780-812 | the first match from the expected line (moved into the file) downwards, else the nearest one above it, and 0 exactly if there is none; a hunk without old lines goes where it is expected; last_offset follows |
| PatchApply.LocatedOnce | cmd/posix/patch.c:780-812 | these rules leave one place |
| PatchApply.Patcher.CopyTill | cmd/posix/patch.c:1017-1028 | it aborts exactly if the frontier is past the line; otherwise the input lines up to it are copied once |
| PatchApply.Patcher.SpewOutput | cmd/posix/patch.c:1030-1039 | the rest of the input is copied |
| PatchApply.Patcher.ApplyHunk | cmd/posix/patch.c:895-1003 | the two-cursor merge aborts exactly if the first change lies before the frontier; otherwise output plus the rest up to the hunk's end is the old output, the lines before the first change and the new side from it on |
| Patch.RunSplices | cmd/posix/patch.c:895-1039 | the result of any list of applied hunks is the input after one splice per hunk: the changed part of its old side is replaced by that of its new side where the hunk was found, moved by what the hunks before it added and deleted; no other line changes |
| Patch.HunkReplaces | cmd/posix/patch.c:895-1039 | in the result so far, applying a hunk replaces its old side by its new side at the matched place and changes no other line |
| Patch.LocateAndApply | cmd/posix/patch.c:381-492 | a hunk is looked for at its first line plus the offset so far; it is rejected exactly if it has no place, and changes nothing then; it aborts exactly if its first change is before the frontier; otherwise it is applied there |
| Patch.PlacesDetermined | cmd/posix/patch.c:381-492 | the input and the hunks looked for so far determine all places and offsets |
| Patch.Run | cmd/posix/patch.c:358-500 | for every text: the hunks looked for are those that can be read from it, in order, each at the place that the input and the offset so far determine; a result is the input after one splice per hunk found, with the others counted as failed; the run aborts only if the text is refused or has no hunk, at a hunk that begins before the frontier, or at the end if one lies past the file; for hunks that describe how the input differs the result is computed exactly, and without -R every hunk goes to the line of its header |
| Patch.TextIsRead | cmd/posix/patch.c:2142-2305 | the text of any list of well-formed hunks is read as these hunks, to its end |
| RoundTrip.DiffThenPatch | cmd/posix/patch.c:358-500 | diff -u of any two files, any context length and any bound, fed to patch: every hunk is at offset 0, none fails, and the result is the new file |
| RoundTrip.SwapIsPatch | cmd/posix/patch.c:2453-2543 | the swapped hunks of a diff describe how to get from the new file to the old one |
| RoundTrip.FinalReversed | cmd/posix/patch.c:2453-2543 | patch -R reaches its target exactly if every swapped hunk has old lines or only repeats the line before it |
| RoundTrip.ReversedElsewhere | cmd/posix/patch.c:2453-2543 | a one-hunk diff without context that patch -R does not undo: the deleted line comes back one line too early |
| RoundTrip.DiffThenPatchBack | cmd/posix/patch.c:2453-2543 | diff -u, then patch -R on the new file: it always ends with a result; this is the old file exactly if every hunk has new lines or only repeats the new line before it; with context lines, exactly if the new file is not empty or the old one is |
| Decimal.Scan | cmd/posix/pax.c:567-585 | the longest run of digits is read, and its value |
| DcDigits.CanonicalSign | cmd/extra/dc.c:372-397 | only the empty string is 0, and a top digit of -1 is the sign |
| DcDigits.CanonicalUnique | cmd/extra/dc.c:378-397 | a number has one canonical digit string |
| DcNum.Num.Norm | cmd/extra/dc.c:378-397 | the canonical string of the same number; 0 gets scale 0 |
| DcNum.Num.ChSign | cmd/extra/dc.c:325-355 | the negated number, canonical again, for both signs and 0 |
| DcNum.Num.MulN | cmd/extra/dc.c:421-438 | n times the number; a negative one may get a top digit as low as -n |
| DcNum.Num.DivN | cmd/extra/dc.c:440-456 | quotient and remainder of a number that is not negative, the quotient canonical |
| DcNum.Num.AddN | cmd/extra/dc.c:504-522 | the number plus a small one, canonical, with the carry run to its end |
| DcNum.Num.RShift | cmd/extra/dc.c:296-311 | the lowest digits are dropped, all of them if there are not enough |
| DcNum.Num.Div10 | cmd/extra/dc.c:458-467 | the number divided by a power of 10, rounded down; the scale is lost exactly if an odd shift leaves nothing of a number below 10 |
| DcNum.Num.Mul10 | cmd/extra/dc.c:469-478 | the number times a power of 10, with a top digit of at least -10 |
| Dc.Align | cmd/extra/dc.c:480-502 | both numbers get the larger scale and keep their value |
| Dc.AddNum | cmd/extra/dc.c:539-577 | the exact sum of signed numbers of any lengths and scales, canonical, with the larger scale unless it is 0 |
| Dc.SubNum | cmd/extra/dc.c:579-589 | the exact difference, likewise; the second argument is untouched and may be the first |
| Dc.CmpNum | cmd/extra/dc.c:947-964 | -1, 0 or 1 exactly as the numbers compare |
| Dc.MulRow | cmd/extra/dc.c:615-638 | one digit's row adds that digit times the other factor at its place, and its carry never runs past the room reserved |
| Dc.MulNum | cmd/extra/dc.c:591-658 | the sign times floor(abs A * abs B / 10^t), t = max(0, as + bs - max(as, bs, scale)), canonical, also if both arguments are one object; the scale in every case |
| Dc.TinyProduct | cmd/extra/dc.c:642-648 | digit 1 with scale 1 times itself at scale 0 is no digits with scale -1 |
| Dc.PowHalf | cmd/extra/dc.c:916-932 | squaring the base and halving the exponent, with one factor if it was odd, keeps the power |
| Dc.ExpNum | cmd/extra/dc.c:897-945 | for a whole base and an exponent that is not negative the loop ends with the base to that power |
| Dc.PrintDigits | cmd/extra/dc.c:1256-1258 | the digits pushed are proper digits of the base, the first is not 0, and they stand for the number |
| Dc.ToNum | cmd/extra/dc.c:1104-1111 | the digits read give the number they stand for, canonical |
| Dc.PrintThenRead | cmd/extra/dc.c:1104-1111 | writing a number in a base from 2 to 16 and reading it in that base gives the same digit string |
| Tftp.HeaderRoundTrip | cmd/net/tftp.c:65-95 | opcode and payload survive the packet, the block number modulo 65536; both numbers are sent high byte first |
| Tftp.InvNext | cmd/net/tftp.c:138-240 | every step of either side, with any packet ever sent or a timeout, keeps the invariant that ties the two sides and the network together |
| Tftp.RunKeeps | cmd/net/tftp.c:138-240 | the invariant holds in every state of every run |
| Tftp.WrittenIsPrefix | cmd/net/tftp.c:138-188 | in every reachable state the receiver has written whole blocks from the start of the file |
| Tftp.SenderReturns | cmd/net/tftp.c:190-240 | when the sender returns, the receiver has the whole file, and it has fewer than 65536 blocks |
| Tftp.ReceiverReturns | cmd/net/tftp.c:138-188 | when the receiver returns, the file has at most 65536 blocks, and it has the whole file exactly if there are not 65536 or the last one is empty |
| Tftp.CanComplete | cmd/net/tftp.c:138-240 | every file of fewer than 65536 blocks has a run in which both sides return |
| Tftp.CanFinish | cmd/net/tftp.c:138-240 | from every state with the invariant in which the receiver has not returned, with fewer than 65536 blocks, a run leads to both sides having returned with the whole file |
| Tftp.Recovers | cmd/net/tftp.c:138-240 | the same from every reachable state with all requests, data and acknowledgements on the way lost: each side sends again what was not answered |
| Tftp.RecoversExactly | cmd/net/tftp.c:138-240 | after such a loss the transfer can be completed exactly if the receiver has not returned or the sender has the acknowledgement of the last block |
| Tftp.CanLoseLastBlock | cmd/net/tftp.c:158-170 | every file of 65536 blocks has a run in which the receiver returns without the last one |
| Tftp.GetFile.Round | cmd/net/tftp.c:138-188 | one case of getfile's switch: the new variables and the packet sent are those of the receiver's step |
| Tftp.PutFile.Round | cmd/net/tftp.c:190-240 | one case of putfile's switch, likewise; that the block in the buffer goes out again after a timeout is what Tftp.Recovers needs |
| Tftp.Play | cmd/net/tftp.c:138-240 | one round of one program, with any packet that was sent or a timeout, is one step of the system, and the invariant holds of the two programs and the network |
| Tftp.PlayAll | cmd/net/tftp.c:138-240 | both programs through any list of events end where the steps of the system lead: the receiver's output is a prefix of the file, all of it if the sender has returned, and if the receiver has, all but a last block 65536 that is not empty |
| EdRing.SplitIsText | cmd/posix/ed.c:200-202 | a text is cut into its lines and nothing is lost |
| EdRing.InjectMeans | cmd/posix/ed.c:337-358 | the lines added follow the current line, the last of them becomes current, and all others keep their order |
| EdRing.DeleteMeans | cmd/posix/ed.c:1046-1059 | the line after the deleted ones becomes current, or else the last line; the lines before and after them stay |
| EdRing.InjectThenDelete | cmd/posix/ed.c:337-358 | deleting what was just added restores the lines |
| EdRing.LinksAreInverse | cmd/posix/ed.c:305-316 | next and prev are each other's inverse on the nodes of the ring |
| EdRing.InsertRing | cmd/posix/ed.c:349-357 | the two link writes of inject put a node into the ring after a given one |
| EdRing.RemoveRing | cmd/posix/ed.c:1053-1058 | the one link write of delete takes a range of nodes out of the ring |
| EdRing.UnwindWrite | cmd/posix/ed.c:281-316 | a logged write does not change what undoing everything leads to |
| EdRing.Editor.GetIndex | cmd/posix/ed.c:213-225 | following next from the head finds the node of a line, -1 being line 0 |
| EdRing.Editor.MakeLine | cmd/posix/ed.c:176-211 | a new node for the first line of a text; document and undo are unchanged |
| EdRing.Editor.NewUndo | cmd/posix/ed.c:281-303 | the first write of a command starts a new log with that command's starting point; later ones only add to it |
| EdRing.Editor.Relink | cmd/posix/ed.c:305-316 | two links are set, and what an error would go back to stays the same |
| EdRing.Editor.Undo | cmd/posix/ed.c:318-335 | lines, current line and number of lines are again those before the logged command |
| EdRing.Editor.DoInject | cmd/posix/ed.c:337-358 | the lines of the text are inserted after the current line in the sequence of lines, the last of them is current, and the starting point is kept |
| EdRing.Editor.DoDelete | cmd/posix/ed.c:1046-1059 | lines from..to are removed from the sequence of lines, the current line is set, and address 0 is an error |
| EdRing.Editor.Error | cmd/posix/ed.c:79-93 | the document is what it was when the command began |
| EdRing.Editor.Command | cmd/posix/ed.c:1662-1678 | any list of steps runs whole or not at all; a command that changed something can be undone to its start, one that did not leaves the earlier undo alone |
| EdRing.Editor.CommandThenUndo | cmd/posix/ed.c:1381-1388 | a command and, unless it fails, u after it: if it changed anything, lines, current line and line count are as before; if not, the command before it is undone; a command that fails leaves everything as it was |
| FindProof.InfixIsFull | cmd/posix/find.c:962-1000 | the first loop writes every omitted -a of an expression of the grammar and no other |
| FindProof.ReadExpr | cmd/posix/find.c:1007-1044 | the operator stack reads any expression of the grammar wherever it may stand, leaving only operators that complete its tree when popped |
| FindProof.StripMeans | cmd/posix/find.c:1091-1115 | short-circuit evaluation of the tree has the result and runs the primaries of the grammar's meaning, in order |
| FindProof.EnoughOperands | cmd/posix/find.c:962-1000 | after the first loop, operands are never too many, and if they are as many as the operators need, each is in its place |
| FindProof.Rebuild | cmd/posix/find.c:1007-1083 | from an accepted token list an expression of the grammar can be read off that has exactly these tokens and this tree |
| FindProof.ParseMeans | cmd/posix/find.c:949-1115 | every expression of the grammar is accepted, and evaluating its tree is the grammar's meaning, with -print added if there is no action |
| FindProof.ParseExactly | cmd/posix/find.c:949-1089 | a tree comes out exactly for the expressions of the grammar and the empty command line |
| FindProof.Unambiguous | cmd/posix/find.c:315-323 | two expressions with the same words have the same tree |
| FindProgram.MakeInfix | cmd/posix/find.c:962-1002 | the token array is the infix form, with at most two tokens per word and at most one stack entry per word |
| FindProgram.MakeRpn | cmd/posix/find.c:1007-1049 | the loop with its array stack computes the reverse Polish notation or finds the unmatched parenthesis, and the stack never overflows |
| FindProgram.LinkTree | cmd/posix/find.c:1061-1086 | the links stored in the tokens form the tree of the reverse Polish notation, or its operands are too few or too many |
| FindProgram.EvalNode | cmd/posix/find.c:1091-1115 | walking the links evaluates the tree at a token |
| FindProgram.ParseThenEval | cmd/posix/find.c:949-1115 | a command line is refused exactly if it is not in the grammar (or empty), and otherwise evaluation is the grammar's meaning |
| Pax.CountDigits | cmd/posix/pax.c:1278-1283 | d is the number of digits of l and m the next power of 10; the loop leaves the ints exactly for l from 10^9 on |
| Pax.FitsInt | cmd/posix/pax.c:1278-1283 | the power of 10 above l is an int exactly for l below 10^9 |
| Pax.LengthIsRight | cmd/posix/pax.c:1284-1287 | the number printed is the length of the record with its own digits, for every payload length |
| Pax.WriteRec | cmd/posix/pax.c:1266-1288 | one record that says its own length is appended, for the pair cut at its NULs, exactly if the formatted pair is shorter than 10^9 |
| Pax.WriteRecords | cmd/posix/pax.c:1300-1323 | one such record for each pair, in order, exactly if all can be counted |
| Pax.ReadExtHdr | cmd/posix/pax.c:794-832 | the loop over the buffer, which it overwrites, computes the pairs of the text it began with or refuses it |
| Pax.ReadExactly | cmd/posix/pax.c:794-832 | a text is read as some pairs exactly if it is a list of records for them, each with its length in decimal (leading zeros allowed), a blank, key, =, value and newline, with no newline in a pair and no = or NUL in a key |
| Pax.ReadBack | cmd/posix/pax.c:794-832 | a list of counted records is read back as its pairs exactly if no pair has a newline and no key has = or NUL; a value may have both |
| Pax.WrittenIsRead | cmd/posix/pax.c:1266-1288 | the records of pairs cut at their NULs are read as the pairs themselves exactly if these have no NUL either |
| Pax.NulIsLost | cmd/posix/pax.c:1266-1288 | the value a NUL b is readable and comes back as a |
| Pax.WriteThenRead | cmd/posix/pax.c:1266-1288 | pairs written as records and read again are the same exactly if every record is shorter than 10^9, no pair has a newline or NUL, and no key has =; and the same for the pairs cut at their NULs without the condition on values |

## Left out

- Diff.Unified: requires that 0 is not the largest hash among the new lines that prune leaves, as the other members on whole files do, because equiv writes 0 after the last sorted line and then runs past it (cmd/posix/diff.c:1529-1536).
- Diff.ChangeRegions: no length is promised if two different lines share a hash, since the engine compares hashes and check drops the false pairs afterwards.
- Diff.PlainRegions: the square root of the number of old lines is a parameter.
- DiffMatch.Check: works on lines instead of byte offsets; a missing final newline is not modelled.
- DiffClasses.Members: the arrays that share memory in the program (file, sfile, class, member) are separate here.
- DiffUnified.Printer.Fetch: the branches for a missing final newline, tabs and colour are not modelled.
- EditScript.EdScriptRebuildsNew: the escape for a line that is a lone "." in an ed script is not modelled.
- diff's file header lines, context, normal, side-by-side, ifdef and group formats, colour, -b, -w, -i, -B, -I, binary files and directories.
- Patch.Run: models -f -F 0: no fuzz, no prompt that offers to turn the patch around, one file and one patch; a patch with a "\" line (no newline at end of file) is read as if the line were not there.
- Patch.LocateAndApply: no fuzz retries and no prompt, likewise.
- PatchRead.Reader.RemoveSpecialLine: the "\" line is skipped, but the newline is not taken off the line stored before it, since lines carry no newlines here.
- PatchRead.Reader.ReadBody: the same newline is not taken off.
- patch's -l and -D options, context, normal and ed diffs, hunks with "!" lines, file access plans, backups, reject files and file naming.
- PatchRead.Atol: numbers are unbounded up to LINENUM_MAX; the 64-bit overflow of atol is not modelled.
- dc's divmod and what rests on it (division, remainder, square root, fractional input and output), negative exponents and fractional bases of powers.
- Dc.ExpNum: a whole base and an exponent that is not negative only.
- DcNum.Num.Poke: the growth of the buffer is not modelled; that every stored digit fits a signed char is required and proved at each call.
- dc's registers, strings, macros and line folding.
- Tftp.Recovers: a request is only its opcode; file names and modes, error packets, foreign addresses, the retry limit and short reads from a pipe are not modelled.
- ed's move, join, copy, BEFORE insertion, regular expressions, marks, global commands, the scratch file and signals; the text of a line is kept with its node.
- EdRing.Editor.MakeLine: running out of memory or disk is not modelled.
- find's primaries, -exec batching, the argument parsing of primaries, unknown words and the directory walk: a primary is a yes-or-no answer that may depend on all that ran before it.
- Pax.WriteRec: promises nothing once the count is not an int, and running out of memory is not modelled.
- Pax.ReadExtHdr: what each keyword does to the header, and the wrap of a length above 2^64, are not modelled; strings do not need to grow.
- The other programs of the repository, and the input and output of these.
