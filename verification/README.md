# Verified models of the userland tools

A Dafny project that models the programs of `src/commands` with real algorithms in them and proves what they are for:
writers undone by their readers, checkers satisfied by builders, pointer structures that stand for sequences, and fast
forms that do what a simple specification says.

| program | files | in one line |
|---|---|---|
| compress | `BitOps`, `LzwStream`, `LzwGreedy`, `LzwHash`, `LzwWriter`, `LzwReader`, `Compress` | adaptive LZW: the writer takes the longest word in the table, and the reader, one entry behind, takes back every byte |
| diff, fix | `Text`, `Fix`, `Edits`, `Diff` | the listing of the sliding-window search, applied to the old file, is the new file, and exactly when |
| ci, co | `SvcFile`, `CiCo` | a history of check-ins as a stack of reverse deltas, and which revisions come back |
| mkfs | `FsDisk`, `FsTree`, `MkfsDisk`, `MkfsTree`, `Mkfs`, `BlockCache` | a prototype tree laid out on a disk of typed blocks; the write-back cache |
| readfs | `LruCache`, `Extract`, `Readfs` | files and directories read back, and what becomes of them under their names; the cache of the five blocks last asked for |
| fsck | `FsckState`, `FsckWalk`, `FsckTrace`, `FsckDirs`, `FsckExact`, `FsckSound`, `FsckRecord`, `FsckReject`, `Fsck`, `FsckHardLink` | the read-only pass: what it finds of a disk built by mkfs, what a clean result says of any disk, and which disks are passed |
| ed | `EdMatch`, `EdBuffer` | the backtracking matcher and its language; the ring of lines and the sequence it stands for |
| btoa | `BtoaWords`, `BtoaText`, `Btoa`, `Atob`, `BtoaRound`, `BtoaCheck`, `BtoaDamage`, `BtoaUnnoticed` | base 85 with signed words, delayed output, line and file checksums |
| sed | `SedScript`, `SedCompile` | pending branches threaded through the command array and patched at the end |
| crc | `Gf2`, `CrcTable`, `Crc` | the table checksum as a polynomial remainder |
| fgrep | `Fgrep` | search by skip table |
| look | `Look` | binary search over byte offsets |
| roff | `RoffLine`, `Roff` | justification of a line in place |

`Options` and `Stdio` are shared. Each program's loops and fields are kept as methods and classes; every method is proved
against a specification function or predicate, and the lemmas are about those. Bytes are unsigned and `int` is unbounded
unless a width matters: block numbers and counts of the file system, the 32-bit words and sums of btoa and the 16-bit
register of crc wrap as they do in C.

## Model

| member | source | states |
|---|---|---|
| Compress.RoundTrip | src/commands/compress.c:1011-1090 | for every input, every maxbits from 9 to 13, both block modes and every choice of clear points, decompress returns what compress was given |
| Compress.Squeeze | src/commands/compress.c:717-839 | whatever full tables are cleared, the bytes written are those of a legal run of codes whose words joined are the input, packed at the widths in force, and the run is greedy: no word it writes, followed by the next letter of the input, has an entry in the table at that point, the all-zero pair aside |
| LzwGreedy.OneGreedyRun | src/commands/compress.c:769-804 | between them the input and the points at which the table is cleared determine every code: two greedy runs of an input without two zero bytes in a row that clear at the same points are the same |
| LzwGreedy.LongestWord | src/commands/compress.c:769-804 | no code known at that point stands for the word written and one letter more |
| LzwGreedy.SixLetters | src/commands/compress.c:769-804 | the only greedy run of six equal letters is that of three codes: the letter, the first entry and the second |
| Compress.SixLettersFile | src/commands/compress.c:717-839 | compress itself writes those three codes |
| Compress.Unsqueeze | src/commands/compress.c:1011-1090 | from any such bytes the reader's prefix and suffix tables, stack and KwKwK case bring back the input |
| Compress.DecompressFile | src/commands/compress.c:1011-1090 | settings come from the third header byte; without the magic number the file is rejected |
| LzwStream.ReaderKnowsWord | src/commands/compress.c:1044-1082 | each code is known to the reader with the writer's word, or names the one missing entry and stands for the last word and its own first letter again |
| LzwStream.LegalIsOk | src/commands/compress.c:938-984 | after any legal run the width, maxcode and dictionary agree: every code that can come next fits in the current width |
| LzwHash.HsizeIsPrime | src/commands/compress.c:193 | 9001 has no divisor; that every stride therefore visits the whole table is `LzwHash.SlotsDiffer` |
| LzwHash.SlotsDiffer | src/commands/compress.c:779-797 | within one sweep of the table no slot is probed twice |
| LzwHash.Probe | src/commands/compress.c:769-804 | the probe ends; a hit is the code whose entry is the prefix and the letter, a miss means there is none, unless the key is the all-zero pair |
| LzwHash.MissIsExact | src/commands/compress.c:769-804 | a search that misses proves the pair absent from the table unless it is the all-zero pair |
| LzwHash.InsertKeepsOrder | src/commands/compress.c:797-804 | entering a pair where its search ended hides no other entry |
| LzwHash.TableFacts | src/commands/compress.c:769-804 | at most 7936 of the 9001 slots are ever occupied |
| LzwWriter.Writer.Output | src/commands/compress.c:864-1003 | one code goes to its bit offset, the others stay, and buffers are flushed whole at width changes and clears exactly where the stream says |
| LzwWriter.Writer.Finish | src/commands/compress.c:985-1003 | the last, short buffer holds the remaining codes and no more bytes than they need |
| LzwReader.Reader.Refill | src/commands/compress.c:1103-1150 | a new buffer is read exactly where the writer began one, and the end is seen exactly behind the last code |
| LzwReader.Reader.GetCode | src/commands/compress.c:1103-1177 | the code of the next event, or -1 behind the last one: no phantom code in the short buffer |
| LzwStream.ChunkHolds | src/commands/compress.c:1103-1177 | the buffer that is current before a code holds that code at its place, among those already taken |
| Diff.FixUndoesDiff | src/commands/fix.c:65-103 | fix applied to the old file and diff's listing prints the new file if and only if the listing does not begin with an insertion in front of line 1 |
| Diff.DiffThenFix | src/commands/diff.c:237-327 | both programs one after the other, on any two files: diff ends, and the same if-and-only-if holds of fix's result and of what it prints |
| Diff.Diff | src/commands/diff.c:237-301 | the window search prints the listing of an edit script that leads from one file to the other |
| Diff.EditsConnect | src/commands/diff.c:237-327 | leaving out insertions that script is the old file, leaving out deletions the new one, and hunks are not empty or adjacent |
| Diff.EditsStartAtDifferences | src/commands/diff.c:237-327 | each hunk starts where the files differ |
| Diff.SearchRound | src/commands/diff.c:264-299 | one round of the search finds the nearest place where three lines agree, or leaves both windows one line longer |
| Edits.OneNumber | src/commands/diff.c:342-345 | a range prints as a single number exactly if it is one line |
| Diff.Window.Aside | src/commands/diff.c:175-190 | lines put aside come back in order in front of the unread ones |
| Diff.PrependedLine | src/commands/fix.c:93-101 | a line put in front of a one-line file: fix prints it behind the old one |
| Edits.FixUndoesPrint | src/commands/fix.c:65-103 | the same if-and-only-if for every edit script of that shape, not only diff's |
| Fix.Fix | src/commands/fix.c:52-105 | the apply loop gives the result or the reason of the specification, with what was printed until then |
| Fix.StrwEqualMeans | src/commands/fix.c:169-190 | strwcmp reports equality exactly when the lines agree but for white space |
| CiCo.HistoryComesBack | src/commands/ci.c:109-178 | ci for each check-in of a history in turn, with any locks taken in between, then co: all revisions come back if and only if each one that is longer, in bytes, than the listing that leads back to it has a listing that does not insert in front of line 1 |
| CiCo.EveryRevisionComesBack | src/commands/co.c:164-219 | the same for the SVC file of a history |
| CiCo.RevisionsComeBack | src/commands/co.c:164-219 | where revision m is the newest, or no longer than the listing that leads back to it, the revisions k to m all come back if and only if those between them are as above, whatever is wrong further up |
| CiCo.NextCheckIn | src/commands/ci.c:109-178 | a check-in puts one delta on the stack and drops the locks, or is rejected when the last lock is not the user's |
| CiCo.Ci | src/commands/ci.c:109-178 | the new SVC file line by line; of the lines themselves, the delta is the old revision with the command that moves it into place if and only if its bytes are at most those of the listing, and the listing with the fix command otherwise |
| SvcFile.DeltaIs | src/commands/ci.c:162 | which of the two is stored, by their sizes in bytes |
| CiCo.ShortRevisionComesBack | src/commands/ci.c:109-178 | a revision of two lines whose listing would lose it is shorter than the listing, and comes back |
| CiCo.Extract | src/commands/co.c:164-219 | the revision that the stack of deltas leads down to |
| CiCo.DeletedFirstLine | src/commands/co.c:164-219 | two check-ins after which the first revision is lost |
| Mkfs.Build | src/commands/mkfs.c:81-252 | succeeds exactly when the tree fits, and then the device is a file system that holds the tree: super block, maps, inodes, directories and files in place, nothing else allocated |
| Mkfs.Maker.Super | src/commands/mkfs.c:260-356 | super block, cleared maps and inodes, and the map bits that stand for nothing set |
| Mkfs.Maker.InsertBit | src/commands/mkfs.c:670-690 | exactly the bits asked for are set, in any starting position |
| Mkfs.Maker.AddZone | src/commands/mkfs.c:545-583 | a zone goes into the first free direct place or the indirect block, which is allocated when the eighth comes; fails exactly when there is no place or no room |
| Mkfs.Maker.EatFile | src/commands/mkfs.c:461-481 | up to 7 direct and 512 indirect blocks hold the file's bytes, size and numbers; fails exactly when it is larger or the device is full |
| Mkfs.Maker.EnterDir | src/commands/mkfs.c:491-540 | an entry goes into the first free slot of the directory, in a new block when all are taken |
| Mkfs.Maker.EatDir | src/commands/mkfs.c:398-458 | all children and their subtrees are in place and older inodes and zones as they were; fails exactly when they do not fit |
| Mkfs.Maker.AllocInode | src/commands/mkfs.c:627-648 | the next inode, empty and marked; the last number is never given out |
| Mkfs.Maker.AllocZone | src/commands/mkfs.c:651-667 | the next zone, zeroed and marked, until the device is full |
| FsTree.NodeKept | src/commands/mkfs.c:398-458 | a finished subtree survives every later change outside its inodes and zones |
| BlockCache.Run | src/commands/mkfs.c:946-1051 | for every run of get_block and put_block: zeros at the first access, then the last block put, or the device's own; after flush the device holds what was last put |
| BlockCache.Cache.GetBlock | src/commands/mkfs.c:946-989 | eviction of the least used clean slot, or of a dirty one written back, never changes what the cache's users see |
| BlockCache.Cache.PutBlock | src/commands/mkfs.c:992-1030 | the one block is replaced, no block gets two slots |
| BlockCache.Cache.Flush | src/commands/mkfs.c:1041-1051 | the device holds every block as last put |
| LruCache.Cache.GetBlock | src/commands/readfs.c:404-455 | always the device's block, or none behind its end |
| LruCache.Cache.Buffers | src/commands/readfs.c:404-455 | the cache buffers exactly the five different blocks most recently asked for |
| LruCache.LatestIsByLastRequest | src/commands/readfs.c:404-455 | the list that is meant by this names every requested block once, in the order of its last request |
| Readfs.PlacesAreInOrder | src/commands/readfs.c:334-388 | direct, single and double indirect places are filled injectively, in order and without gaps; `Readfs.StoredContents` is about what stands there |
| Readfs.FileBlockIsPlaced | src/commands/readfs.c:334-388 | get_fileblock finds every block below 65536 in its place on a device that 16 bits can address, and none behind; `Readfs.StoredContents` is about what it finds |
| Readfs.StoredContents | src/commands/readfs.c:282-325 | what eat_file stored dump_file returns byte for byte |
| Readfs.MaxSizeIsAllPlaces | src/commands/mkfs.c:285-287 | the maximum size in the super block is that of the bytes for which a file has places |
| Readfs.MkfsThenReadfs | src/commands/readfs.c:116-170 | mkfs and then readfs in an empty directory, on any tree that fits: devices come back as empty files, names cut, without the entries that dump_dir misses and those whose name is taken or cannot be made; everything comes back exactly if the tree fits and is recoverable |
| Extract.RecoveredExactly | src/commands/readfs.c:207-304 | the entries that come back are the tree's own if and only if in every directory there are at most 62, with different names of at most 14 characters, none empty, `.`, `..` or with a '/' or a NUL, and none is a device |
| Extract.AlwaysTidy | src/commands/readfs.c:229-304 | whatever is extracted into a directory of proper names that are all different, it stays one |
| Readfs.SixtyThirdEntryIsLost | src/commands/readfs.c:207-275 | a tree of 63 files goes through both programs and comes back with 62 |
| Readfs.SecondTwinIsLost | src/commands/readfs.c:300-304 | so does a tree of two files of one name, of which the first comes back |
| Fsck.MkfsThenFsck | src/commands/fsck.c:1278-1312 | whatever tree fits, mkfs builds it, and fsck's pass complains about nothing if and only if names are plain and no directory has more links than the limit, also where mkfs's link count has come round |
| Fsck.FsckAny | src/commands/fsck.c:1278-1312 | on any device, nothing to complain about means a consistent file system: no zone in two places, none and no entry passed over, each directory entered once and with `..` leading back, link counts equal to the entries that name the inode, maps equal to what is reached from the root, all other inodes free; and on every device that is consistent, with `.` and `..` in place in each directory and a super block that passes its own checks, there is nothing to complain about |
| FsckHardLink.TwoNamesAreClean | src/commands/fsck.c:1203-1235 | a device on which one file has two names is passed |
| FsckRecord.SameAsRecord | src/commands/fsck.c:1203-1235 | a finished walk that has met nothing but what is on the record of a consistent device has met all of it |
| FsckRecord.MarkPasses | src/commands/fsck.c:1005-1026 | a zone on the record is in range and not marked yet when its place in the file comes |
| FsckRecord.CountIsLow | src/commands/fsck.c:898-945 | the count of an inode is not at the limit when an entry on the record names it |
| FsckRecord.NotMarkedYet | src/commands/fsck.c:898-945 | an entry on the record never names a directory that has been entered |
| FsckRecord.ParentIsRight | src/commands/fsck.c:898-945 | the directory below on the stack is the one that `..` has to name |
| FsckExact.StandingIsCovered | src/commands/fsck.c:1049-1112 | every zone that stands in an inode's lists, at whatever level, is met where the whole file has been |
| Fsck.Checker.ChkDev | src/commands/fsck.c:1278-1312 | a clean pass ends with the record of such a walk; on what mkfs has built from a sound tree the rebuilt maps are those on the disk, bit 0 and the padding included, and every count ends at zero |
| FsckSound.CleanIsConsistent | src/commands/fsck.c:1278-1312 | if the maps and counts are those of the walk and the four last comparisons find nothing, the disk is consistent, although counts are unsigned bytes |
| FsckSound.ZonesApart | src/commands/fsck.c:1005-1026 | on a consistent disk no two direct zones of files or directories, or of one, are the same |
| FsckSound.HasWay | src/commands/fsck.c:898-945 | every inode met is reached from the root by entries of directories that have been met |
| FsckSound.DirectoriesAreATree | src/commands/fsck.c:935-944 | on a consistent disk no ordinary entry names the root, and exactly one names each other directory |
| FsckSound.DotDotLeadsBack | src/commands/fsck.c:833-864 | an entry `..` names the directory which that one entry is in |
| FsckDirs.MetEntered | src/commands/fsck.c:935-944 | when the walk comes to a new inode, no earlier ordinary entry can have named it |
| FsckDirs.VisitedEntered | src/commands/fsck.c:937-944 | when it comes to one again, and the map of directories lets it pass, that is not a directory |
| FsckTrace.OneRef | src/commands/fsck.c:1005-1026 | marking a zone keeps the zone map that of the zones met, each once, from the first data zone to the last |
| FsckTrace.OneLink | src/commands/fsck.c:898-945 | counting an entry keeps each count the number of entries naming the inode less its own link count, modulo 256 |
| FsckTrace.OneMet | src/commands/fsck.c:1175-1199 | so does marking an inode and taking its links from its count |
| FsckReject.BuiltIsSound | src/commands/fsck.c:868-945 | a consistent disk that mkfs has built holds a sound tree |
| FsckReject.SlashInName | src/commands/fsck.c:868-893 | a file called `a/b` in the root fits wherever there are three inodes, and is not sound |
| Fsck.Checker.DescendTree | src/commands/fsck.c:1203-1235 | the walk ends on any device; on a subtree that mkfs laid out it marks exactly its inodes and zones and settles its link counts; on a consistent device it complains about nothing, whether the inode is met for the first time or again |
| Fsck.Checker.MarkZone | src/commands/fsck.c:1005-1026 | a zone is accepted exactly when it is in range and not marked yet, and is complained about otherwise |
| Fsck.Checker.ChkMap | src/commands/fsck.c:630-651 | a map is passed exactly when every bit that stands for something agrees |
| Fsck.Checker.ChkCount | src/commands/fsck.c:711-718 | passed exactly when every count is zero |
| FsckState.TallyIsMid | src/commands/fsck.c:898-945 | the entries of a directory's subtree, counted one by one in unsigned bytes, take up exactly the links of its inodes |
| EdMatch.GreedyIsComplete | src/commands/ed.c:221-327 | taking the longest run and giving back finds an end exactly when some prefix of the rest of the line is in the pattern's language, and the end found is one |
| EdMatch.Match | src/commands/ed.c:221-327 | the matcher's loops compute that, and end; said of the language alone, each closure takes the longest stretch from which the rest matches, and the rest does the same, or nothing matches |
| EdMatch.GreedyIsLongest | src/commands/ed.c:257-291 | so does taking the longest run and giving back |
| EdMatch.LastEnds | src/commands/ed.c:257-291 | the places where the closures end are then the lexicographically greatest of all ways to match |
| EdMatch.OneLongest | src/commands/ed.c:257-291 | there is only one such end |
| EdMatch.Omatch | src/commands/ed.c:1913-1953 | one element matches exactly when its character class, anchor or literal does, and moves by one character or none |
| EdMatch.Matchs | src/commands/ed.c:1778-1840 | with its fast path for leading literals, the first place where anything matches, and from there the longest stretches; none exactly when there is no such place |
| EdMatch.LastB | src/commands/ed.c:1778-1840 | `.*b` in a line `abab` ends at the last b |
| EdMatch.LiteralsFirst | src/commands/ed.c:1795-1825 | the plain matcher passes the leading literals exactly where they stand |
| EdBuffer.Buffer.Ins | src/commands/ed.c:1475-1505 | the lines of the text stand behind the current line, which moves to the last of them |
| EdBuffer.Buffer.Del | src/commands/ed.c:525-543 | the lines of the range are gone, counters right, links mutually inverse |
| EdBuffer.Buffer.Move | src/commands/ed.c:1847-1870 | the block stands behind the line asked for; refused exactly when that line is in the block or the range is empty |
| EdBuffer.Buffer.Transfer | src/commands/ed.c:1876-1900 | copies of the block stand behind the line asked for, which may be in the block |
| EdBuffer.Buffer.GetPtr | src/commands/ed.c:1414-1432 | the shorter way around the ring leads to the line |
| EdBuffer.Buffer.CkGlob | src/commands/ed.c:466-502 | a line is marked exactly when it is in the range and the pattern is found in it, or with v is not |
| EdBuffer.Buffer.DoGlob | src/commands/ed.c:843-866 | whatever the command does to the buffer, there are no more rounds than marks, and no mark is left when it succeeds |
| EdBuffer.TextMoves | src/commands/ed.c:1847-1870 | the relinked ring stands for the moved text |
| EdBuffer.CopiedOne | src/commands/ed.c:1876-1900 | wherever the original of the next line stands by then, it is the right line; `EdBuffer.Buffer.Transfer` uses it at every step |
| BtoaRound.EncodeThenDecode | src/commands/btoa.c:273-332 | atob undoes btoa for every byte sequence in the old format; in the new one exactly when no line checksum comes out as a line end or a NUL |
| BtoaRound.Decode | src/commands/btoa.c:490-553 | for every archive, not only one that btoa made: there is a result exactly when the lines of the body are acceptable and the three sums are those of what was decoded, over the bytes in the old format and the characters in the new; groups may straddle lines, and the last one to four bytes are cut right |
| BtoaRound.EncodedIsSound | src/commands/btoa.c:273-332 | an archive that btoa made is sound in the old format, and in the new one exactly if the file is readable, and its contents are the file |
| Btoa.Encoder.Encode | src/commands/btoa.c:273-332 | the archive: words, lines of 78 with a check character, and the final sums |
| Btoa.Encoder.AsciiOut | src/commands/btoa.c:428-463 | after every character the lines written and the running sums are those of the characters so far |
| BtoaWords.DigitsOf | src/commands/btoa.c:379-424 | the signed arithmetic with its two corrections finds the base-85 digits of the unsigned word, for all 2^32 words |
| BtoaWords.ValueOfDigits | src/commands/btoa.c:757-777 | the digits put together in 32-bit arithmetic are the word again |
| Atob.Decoder.DecodeLine | src/commands/btoa.c:709-813 | a line is refused exactly when it has a character that cannot stand where it is; otherwise taking whole words at once does what taking characters one by one does, with output one word late |
| BtoaCheck.ReplacedDigitFails | src/commands/btoa.c:624-642 | one digit replaced by another leaves a line acceptable but makes its checksum wrong, at every running sum and across the 32-bit wrap |
| BtoaCheck.DamagedLine | src/commands/btoa.c:624-642 | atob reports a line of the new format in which one digit has been replaced by another |
| BtoaDamage.ReplacedDigit | src/commands/btoa.c:480-553 | in the old format, which has no line checksums, a digit replaced by another is reported by the file sums exactly if the sums over the bytes of its word come out differently; in a word that is not complete it changes nothing |
| BtoaDamage.SmallSumsDiffer | src/commands/btoa.c:361-375 | they do come out differently unless something is carried out of the 32 bits of the rotated sum within the word |
| BtoaUnnoticed.UnnoticedDigit | src/commands/btoa.c:480-553 | two files of 28 bytes whose archives differ in one digit and have the same sums, so that atob takes one for the other |
| BtoaCheck.SmallFilesAreReadable | src/commands/btoa.c:440-455 | every file of at most 13 million bytes comes back |
| BtoaCheck.ZerosAreUnreadable | src/commands/btoa.c:440-455 | 69855324 zero bytes do not |
| SedCompile.Compile | src/commands/sed.c:363-437 | a script compiles exactly when labels are unique and declared, braces match, and the limits are kept, twenty braces deep included; then every jump leads where the script says: to its label, to the end, to the matching brace |
| SedCompile.Compiler.Resolve | src/commands/sed.c:784-803 | every chain is replaced by its label's address and nothing of it survives; refused exactly when a label is missing |
| SedCompile.Compiler.Patch | src/commands/sed.c:795-801 | walking a chain while overwriting its links sets all of them and no others |
| SedCompile.Compiler.Jump | src/commands/sed.c:408-437 | a branch is linked, or joins the one chain of its label behind the others |
| SedScript.PendingIs | src/commands/sed.c:408-437 | the chains are disjoint, strictly increasing, and together hold exactly the commands that wait |
| SedScript.ResolvedIsRight | src/commands/sed.c:784-803 | links resolved from the tables are those the script asks for |
| SedCompile.TwentyOneBraces | src/commands/sed.c:378-384 | twenty-one nested braces: nothing else is wrong with the script, and the stack of pending braces is overrun |
| Crc.Crc | src/commands/crc.c:78-104 | the register ends as the remainder of the file's polynomial modulo x^16+x^12+x^5+1 |
| Crc.OnlyChecksum | src/commands/crc.c:76-97 | there is only one such remainder |
| Crc.TableRight | src/commands/crc.c:30-63 | entry i of the table is the remainder of i times x^16 |
| CrcTable.TableDoubles | src/commands/crc.c:30-63 | each entry, doubled and reduced, is found again at twice its place |
| Crc.Linear | src/commands/crc.c:76-97 | the checksum of the sum of two messages is the sum of their checksums |
| Crc.BurstIsNoticed | src/commands/crc.c:76-97 | messages of one length that differ only within sixteen bits have different checksums |
| Crc.SameChecksum | src/commands/crc.c:76-97 | two messages, of any lengths, have the same checksum if and only if their polynomials differ by a multiple of the generator |
| Crc.LeadingZeros | src/commands/crc.c:76-97 | any number of zero bytes in front of any message leaves the checksum as it was |
| Crc.LongBurstIsLost | src/commands/crc.c:76-97 | a difference in the generator's own seventeen bits, at any place in any messages, goes unnoticed |
| Crc.ThreeBytes | src/commands/crc.c:76-104 | two files of three bytes with one checksum |
| Gf2.RemainderUnique | src/commands/crc.c:76-97 | two numbers below the generator's degree that are congruent to the same polynomial are equal |
| Fgrep.Find | src/commands/fgrep.c:178-203 | finds the word exactly when it occurs in the line, and its first place; every skip advances |
| Fgrep.NoSkipPasses | src/commands/fgrep.c:188-192 | no skip passes a place where the word stands |
| Fgrep.MakTbl | src/commands/fgrep.c:206-217 | the table holds every character's distance from the end of the word |
| Fgrep.Selects | src/commands/fgrep.c:44-55 | a line is taken when some word's occurrence differs from the -v flag |
| Look.LookPrefix | src/commands/look.c:90-137 | exactly the words with the prefix, each once and in order |
| Look.Look | src/commands/look.c:90-137 | with a suffix, exactly the wanted words if and only if no probe meets the prefix itself or the prefix has the suffix |
| Look.Search | src/commands/look.c:90-113 | the offset search ends, stays in the file, and leaves only words below the prefix behind |
| Look.Scan | src/commands/look.c:117-137 | from there on the scan prints what is wanted and may stop at the first word above |
| Look.WrongWord | src/commands/look.c:100-106 | nine words for which a word with the wrong ending is printed |
| Roff.Filler.FillLine | src/commands/roff.c:860-891 | the line ends exactly at the width asked for, with the same words in order, its gaps filled to one level from the side whose turn it is; unchanged when nothing is missing, refused when it is too long |
| Roff.Filler.Pass | src/commands/roff.c:871-890 | one scan widens every gap narrower than j by one, from its side on, until the excess is used up |
| Roff.Filler.Insrt | src/commands/roff.c:894-900 | the character at p is doubled and the rest moved up |
| Roff.SinglesStayEven | src/commands/roff.c:860-891 | when all gaps were single, widths differ by at most one, the wider ones on the side the scan came from |
| Roff.LeveledIsEven | src/commands/roff.c:860-891 | for any gaps, one that was widened ends at most one wider than any other |
| Roff.Filler.Endless | src/commands/roff.c:870-891 | a line without a gap that is too short is the same after any number of passes, so the loop does not end |
| RoffLine.Parsed | src/commands/roff.c:860-891 | every line that starts and ends with a non-space is made of words and gaps |
| RoffLine.WordsOfRender | src/commands/roff.c:860-891 | the words of a line do not depend on its gaps |

## Findings

Where a program does less than it is for, the condition is exact and an input is given:

- fix reads and prints line 1 before an insertion at address 0, so a listing that begins with `0a` is not undone
  (`Diff.FixUndoesDiff`, `Diff.PrependedLine`).
- For the same reason co loses an old revision below a delta that inserts in front of line 1, unless a delta stored
  whole stands between (`CiCo.EveryRevisionComesBack`, `CiCo.RevisionsComeBack`, `CiCo.DeletedFirstLine`).
- readfs drops entries of directories with more than 62 children (`Extract.RecoveredExactly`,
  `Readfs.SixtyThirdEntryIsLost`), and mkfs builds directories in which readfs refuses entries: a name may stand twice, be
  `.` or `..`, or have a '/' in it (`Extract.RecoveredExactly`, `Readfs.SecondTwinIsLost`).
- mkfs builds trees that fsck complains about, such as one with a '/' in a name or with 126 subdirectories in one
  directory (`Fsck.MkfsThenFsck`, `FsckReject.SlashInName`).
- In btoa's new format the sum of a very long file turns negative, its remainder too, and the check character of a line
  can then be a line end or a NUL (`BtoaRound.EncodeThenDecode`, `BtoaCheck.ZerosAreUnreadable`).
- In btoa's old format a digit replaced by another can leave all three file sums as they were, when a carry is lost from the
  rotated sum (`BtoaDamage.ReplacedDigit`, `BtoaUnnoticed.UnnoticedDigit`).
- sed does not ask whether its stack of braces is full (`SedCompile.Compile`, `SedCompile.TwentyOneBraces`).
- look prints a word that is the prefix itself whatever its ending when the binary search meets it (`Look.Look`,
  `Look.WrongWord`).
- roff's justification does not end for a line of one word that is too short (`Roff.Filler.Endless`).
- crc's checksum is blind exactly to multiples of the generator (`Crc.SameChecksum`): to seventeen bits at the wrong places
  (`Crc.LongBurstIsLost`, `Crc.ThreeBytes`) and to zero bytes at the front (`Crc.LeadingZeros`). The length is printed
  beside the checksum, so that added zero bytes change the line that is printed.

## Left out

- Option parsing, messages, file names, opening and closing, permissions, owners and times, in all programs.
- compress: the ratio that `cl_block` goes by is left open, so that either choice is covered; two zero bytes in a row have the key by which an empty slot is known, so that what is greedy leaves that pair out; `hsize` is 9001; statistics, copying of attributes and files without the magic number.
- diff: lines are sequences that end in a newline, below the buffer size and without NUL; the linked windows are sequences; directories and binary files.
- Diff.Window.Aside: windows are sequences of lines, so freeing of list cells is not modelled.
- fix: input lines longer than the buffer; where a listing line ends early (a command without newline, a `<` or `>` with nothing behind it) the program looks one character further than the line goes, and the model finds nothing there.
- ci, co: the shell is taken to run the commands of an SVC file; `patch` lines, locking by co, prompts, and a last line without newline.
- CiCo.RevisionsComeBack: for a single revision the condition is only sufficient, since fix compares deleted lines but for white space, and a delta may by chance make a wrong file right again.
- mkfs: the UNIX `get_block` and `put_block` serve the builder, and the cache of the other variant is modelled by itself; files that cannot be opened, prototype parsing, `print_fs`, zones larger than a block and maps of more than one block.
- readfs: a failed read that has already overwritten part of an evicted buffer; the listing; a directory that is not empty at the start; paths longer than the buffer.
- Extract.FateOf: a name with a '/' is refused if what stands before the '/' is not a directory there; where such a name leads otherwise, and what is extracted from then on, is not modelled (`Astray`).
- fsck: repairs, listings, the `-c`, `-i` and `-z` lists and the marks they set; a huge directory and odd super-block fields only set a flag; a name without NUL is not read beyond its 14 characters; the presence bits a directory starts with are arbitrary.
- Fsck.FsckAny: `.` and `..` in place are asked for where nothing is to be complained about, but are not promised by a clean result, since the bits for them start with arbitrary values; zones of one block, a device that holds all its zones, and 16-bit fields in the super block are required.
- ed: patterns with `\(`, `\)` or a doubled star, `makepat`, `subst`, `join`, files, and line length limits.
- btoa: diagnosis and repair files, output after an error, the text of header and trailer, a body line that begins with `x`, which ends the archive, and a body line without characters, which is taken as wrong.
- sed: text, files and addresses of commands, the pool of strings, and execution; what happens once the stack of braces is overrun.
- fgrep: empty words and words of more than 255 characters; the reading of lines.
- look: folding of case.
- roff: all but `fillline` and `insrt`; the counter of passes is unbounded.
