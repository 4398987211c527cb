# miniFS and the contact storage device, verified

A Dafny model of two programs of the repository, with proofs about them.

**miniFS** (`02-miniFS`) keeps an inode table, a block-header table whose `next_block` links form one chain per inode,
and a device file that is committed by rewriting all metadata. The model has four levels.

1. *Device and layout* (`Bytes`, `Layout`, `Metadata`, `Image`): the file as bytes, 32-bit offsets with every cut written
   out, the encoding of superblock, inodes and block headers, and what each word of the file is as a number.
2. *Volume* (`Volume`, `Steps`, `Objects`, `Append`, `Directory`, `Removal`, `Places`, `Crash`,
   `FirstFit`): tables, file, and the chain of every inode. `Core` says that chains are finite, end at -1, share no block
   and cover exactly the USED blocks. Elementary changes (`Put`, `Grow`, `Create`, `Release`, `Clear`, commit) keep it, and each is characterised by what
   it does to the byte sequences of all inodes.
3. *Model* (`Model`, `Meaning`, `Scribbles`, `Tree`, `Runs`): what a user sees, a table of files and directories
   without blocks. Space appears only as a footprint, max(1, ceil(bytes / block size)) per object.
4. *Program* (`Filesystem`, `Session`, `Format`): a class with the two arrays and the file, whose methods run the
   program's loops in place. Each command's method is proved to do, for every state and argument, exactly what level 3
   says, including when it refuses, when it exits for lack of blocks, and what a reopened file then shows.
   `Refinement`, `Outcomes` and `Intended` connect the levels. `TornCommit`, `TornAppend`, `Struck` and `TornRm` say what
   a file opens to when a command is killed on the way. `Witness` is one concrete
   volume, `Reached` the commands that lead to it, `Scripts` two concrete sessions.

**The storage device** (`01-kernel_module`) and the two tokenisers are modelled in `Words` and `StorageDevice`.

Geometry (inode count, block count, block size) is a parameter throughout. `Fits` asks that the volume's total size fits
in 32 bits and that the block size is a multiple of the 32-byte directory record; the program's 1024/1024/1024 is one
instance. The invariants hold for any inode and block numbers, including reuse; `NewSound` shows that a volume meeting them
exists for every geometry.

## Where the code and its intent part

Each of these is kept as the code has it, and characterised for all inputs.

- `minifs_init` leaves both counters at 0 although an inode and a block are taken. `Counted` therefore says that each
  counter is one below the truth; `CountersExact` shows that no counter wraps and no free slot is hidden.
- `minifs_remove_from_dir` compares with `>` where `>=` is meant. `ClearsItsRecord` gives the exact condition under
  which it clears the record asked for: index 0, an index that is no multiple of the records per block, or two chain
  blocks that happen to be neighbours on disk. Otherwise it zeroes the first byte of the block that follows on disk:
  `BoundaryPlace` names the object that loses the byte, `BoundaryMisses` says that the record keeps its flag, and
  `RemovingOneFileDamagesAnother` is a sound volume in which `rm` of one file destroys a byte of another;
  `ThreeCommands` reaches it from a new volume.
- `minifs_rm` calls it once more with an inode number for a record index. `RmEffect` contains that write.
- So a removal may do more or less than it is meant to. `RmdirAsMeantIff` and `RmAsMeantIff` say exactly when it drops the
  object, marks the records that matched unused and does nothing else: every byte it zeroes belongs to the object, was
  zero, or is such a mark, and every such record was marked before or is hit. `RmdirAsMeantChecked` and
  `RmAsMeantChecked` say it in terms a caller can look up first. `RmdirExactly` and `RmExactly` give the state left in
  every case but `RmOutOfBounds`, in which the walk of `rm` looks up block number 2^32 - 1, which is outside the table;
  there the model stops with the reply `OutOfBounds`. `StraySession` is a session that reaches it.
- A commit writes the superblock, then the inodes, then the block headers. `TornLoad` says what a file opens to when that
  is cut off between two writes. `TornWriteIff`, `TornGrowthIff`, `TornMakeIff`, `TornRemovalIff` and `TornStruckIff`
  say for each command exactly when a sound volume still opens.
- The clears of a removal reach the file before its commit. `KilledWhileClearing`: those of the matching records leave a
  sound volume. The second clear of `rm` can hit the committed tables; `KilledBeforeCommit` says exactly when a sound
  volume opens behind it, and `Inode35` is a case of the program's own geometry.
- `read` holds the length in a signed word. `ReadExactly`: a file of 2^31 bytes or more is printed as nothing.
- Lookups ignore the `used` flag, and `rmdir` takes the last match while `cd` takes the first. The model does the same.
- `rmdir` does not check for emptiness. `DropKeepsTree` and `CarelessBreaksTree` show that the parent links stay a tree
  if and only if no other directory has the removed one as its parent. The volume stays sound either way (`RunScript`).
  `StrandedIff`: the one command that can end without a current directory is a `cd ..` to a parent that was removed.
  `StrandedSession` is a session that ends so.
- Names of 27 bytes are accepted and cut to 26. `NameReadsBack`: a name is found again under itself if and only if it is
  shorter than 27 bytes.
- `split_request` counts the words of the whole buffer but extracts those before the first NUL, and `device_write` reads
  as many pointers as were counted. `EveryPointerIff` says for which requests all of them are set;
  `NulBetweenWords` is one for which they are not.
- `minifs_write` measures the text after freeing it. The model uses the length taken before.
- `minifs_read_data` reads the block header at index -1 after the last block and does not use it. The model does not
  make that access.

## Model

| member | source | states |
|---|---|---|
| Layout.OffsetsExact | 02-miniFS/src/internal/fs/fs.c:102-126 | the three offset functions, with every 32-bit cut, give the exact sums for any volume that fits |
| Layout.RegionsDisjoint | 02-miniFS/src/internal/fs/fs.c:102-126 | superblock, inode slots, block headers and bodies occupy pairwise disjoint ranges below 2^32 |
| Metadata.LoadEncoded | 02-miniFS/src/internal/fs/fs.c:72-99 | any file that starts with encoded metadata is read back to exactly that metadata |
| Metadata.CommitLoad | 02-miniFS/src/internal/fs/fs.c:206-216 | committing and opening again is the identity on counters and both tables, for every file before |
| Metadata.LoadFrame | 02-miniFS/src/internal/fs/fs.c:72-99 | what opening finds depends on the metadata range alone |
| Image.LittleEndian | 02-miniFS/src/internal/fs/fs.c:206-216 | the four bytes of a stored number, lowest first |
| Image.CommitWords | 02-miniFS/src/internal/fs/fs.h:16-50 | every word a commit puts into superblock, inode slots and block headers, as a number at its offset, types being 0, 1, 2 and 0, 1; nothing behind the tables changes |
| Image.LoadWords | 02-miniFS/src/internal/fs/fs.c:72-99 | what opening makes of every word of any file, and that it fails exactly when the file is too short |
| Image.NewWords | 02-miniFS/src/internal/fs/fs.c:35-58 | every word of an initialised volume: counters 0, the root directory of type 2 at block 0, the rest zero |
| Image.BodyPlaces | 02-miniFS/src/internal/fs/fs.c:102-126 | block bodies lie one behind the other behind the tables |
| Image.RecordBytes | 02-miniFS/src/internal/commands/execute.c:175-181 | the 32 bytes of a stored record: flag, 27 bytes of name, inode number |
| Image.RecordsRead | 02-miniFS/src/internal/fs/fs.c:147-161 | what reading makes of each 32 bytes of a directory |
| Image.FieldBytes | 02-miniFS/src/internal/commands/execute.c:173-175 | the name field holds up to 26 bytes of the name and then zeros |
| Metadata.TornLoad | 02-miniFS/src/internal/fs/fs.c:206-216 | a commit cut off after any number of its writes opens to the new counters and entries as far as written, the old ones from there on |
| Volume.ChainsPartitionUsed | 02-miniFS/src/internal/fs/fs.h:30-50 | chains start at the root block, end at -1, share no block, repeat none, cover exactly the USED blocks; inode 0 is a directory at block 0 |
| Volume.FollowsUnique | 02-miniFS/src/internal/fs/fs.c:225-228 | the `next_block` links alone determine the chain |
| Volume.BlockZero | 02-miniFS/src/internal/fs/fs.c:300-308 | block 0 occurs only at the head of the root directory's chain, so a `> 0` loop cuts no other chain short |
| Volume.CountersExact | 02-miniFS/src/internal/fs/fs.c:180-203 | the counters stay below the table sizes; no slot is free exactly when counter + 1 is the table size |
| Steps.PutContent | 02-miniFS/src/internal/fs/fs.c:230-244 | a write behind the last block's bytes appends to this inode's bytes and changes no other inode's |
| Steps.GrowCore | 02-miniFS/src/internal/fs/fs.c:253-257 | linking a free block behind a full one keeps the whole chain structure and the counters |
| Steps.GrowContent | 02-miniFS/src/internal/fs/fs.c:253-257 | a linked block changes no inode's bytes |
| Objects.CreateCore | 02-miniFS/src/internal/commands/execute.c:162-172 | placing a new inode and its first block keeps the chain structure and the counters |
| Objects.CreateContent | 02-miniFS/src/internal/commands/execute.c:162-172 | the new object is empty and all others keep their bytes |
| Objects.ReleaseKeeps | 02-miniFS/src/internal/commands/execute.c:211-225 | removing an object turns exactly its chain EMPTY, each block once, and keeps every other chain and all other bytes |
| Objects.CommitKeeps | 02-miniFS/src/internal/fs/fs.c:206-216 | a commit makes the file open to the tables in memory and touches no stored byte |
| Append.PourKeeps | 02-miniFS/src/internal/fs/fs.c:219-275 | success stores old bytes followed by the data, for any length; other inodes keep chain and bytes; a stop means no block is free and a proper prefix was stored |
| Append.PourTight | 02-miniFS/src/internal/fs/fs.c:246-270 | no chain of several blocks ends in an empty one |
| Append.PourSplit | 02-miniFS/src/internal/fs/fs.c:219-275 | appending a and then b equals appending a followed by b: same tables, counter, file and success, for every split |
| Append.ThreeAppends | 02-miniFS/src/internal/commands/execute.c:179-181 | the three appends of a directory record equal one 32-byte append |
| Append.ContentLength | 02-miniFS/src/internal/fs/fs.c:230-270 | all blocks but the last are full, so the length of an inode follows from its chain |
| FirstFit.FreeBlockMeans | 02-miniFS/src/internal/fs/fs.c:193-203 | the block taken next is free and all below it are used; there is none exactly when all are used |
| FirstFit.PourFirstFit | 02-miniFS/src/internal/fs/fs.c:246-257 | an append extends the chain by the lowest free blocks, in ascending order, and takes no other |
| FirstFit.MakeFirstFit | 02-miniFS/src/internal/commands/execute.c:152-182 | mkdir and touch take the lowest EMPTY inode, the lowest free block for the object and the next ones for its record |
| Refinement.AppendFailsIff | 02-miniFS/src/internal/fs/fs.c:246-251 | an append fails if and only if the growth of max(1, ceil(n / block size)) exceeds the EMPTY blocks |
| Refinement.ChainFoot | 02-miniFS/src/internal/fs/fs.c:230-273 | an inode of n bytes owns exactly max(1, ceil(n / block size)) blocks |
| Refinement.TotalIsUsed | 02-miniFS/src/internal/fs/fs.c:257 | the footprints of all objects add up to the number of USED blocks, which is the counter plus one |
| Refinement.FreshIsFree | 02-miniFS/src/internal/fs/fs.c:180-190 | the inode allocated is the least number that names no object |
| Refinement.ContentBound | 02-miniFS/src/internal/commands/execute.c:352 | no inode's bytes reach 2^32, so the size field never wraps |
| Meaning.MatchesMeans | 02-miniFS/src/internal/commands/execute.c:196-203 | a record leads to an object by name and kind, whatever its flag |
| Meaning.CdMeans | 02-miniFS/src/internal/commands/execute.c:107-138 | `.` stays, `..` climbs, another name enters the directory of the first matching record, and without one nothing moves |
| Meaning.LastMeans | 02-miniFS/src/internal/commands/execute.c:330-339 | for write, read, rm and rmdir a name leads to the object of the last matching record |
| Meaning.ReadMeans | 02-miniFS/src/internal/commands/execute.c:357-390 | the reply holds that file's bytes if there are fewer than 2^31, and not found without a match |
| Meaning.WriteMeans | 02-miniFS/src/internal/commands/execute.c:323-354 | the text goes behind that file's bytes and changes nothing else, unless the blocks do not suffice |
| Meaning.MakeMeans | 02-miniFS/src/internal/commands/execute.c:141-183 | the three refusals in order; else the least unused number gets the object and a record with flag 1 comes last |
| Meaning.PicksMean | 02-miniFS/src/internal/commands/execute.c:196-203 | a removal picks all matching records, each once and in order |
| Meaning.RemovalMeans | 02-miniFS/src/internal/commands/execute.c:186-210 | its target is the object of the last matching record; without one the state stays and the reply is not found |
| Meaning.RemovalRemoves | 02-miniFS/src/internal/commands/execute.c:211-226 | otherwise exactly the target is gone, unless the walk left the block table |
| Refinement.WriteDone | 02-miniFS/src/internal/commands/execute.c:348-353 | a completed write changes one file of the model by appending, and nothing else |
| Refinement.MakeDone | 02-miniFS/src/internal/commands/execute.c:162-182 | a completed mkdir or touch inserts the empty object and one record at the end of the current directory, and nothing else |
| Refinement.StoppedOverflows | 02-miniFS/src/internal/fs/fs.c:248-251 | a command stops only when the finished state would need more blocks than there are |
| Crash.PourExtends | 02-miniFS/src/internal/fs/fs.c:230-273 | before the commit, data goes only behind committed bytes and into blocks committed as EMPTY |
| Crash.ReopenRestores | 02-miniFS/src/internal/fs/fs.c:72-99 | reopening such a file gives the committed tables, chains and contents |
| Outcomes.InterruptedRecovers | 02-miniFS/src/internal/fs/fs.c:248-251 | after an exit mid-command, reopening shows the files and directories of the last completed command |
| Outcomes.KilledDuringWrite | 02-miniFS/src/internal/commands/execute.c:348-353 | the same when a write is cut off after any number of bytes |
| Outcomes.KilledDuringMake | 02-miniFS/src/internal/commands/execute.c:162-182 | the same when mkdir or touch is cut off after any number of record bytes |
| Outcomes.MakeOutcome | 02-miniFS/src/internal/commands/execute.c:141-183 | mkdir and touch succeed or stop exactly when the model does; success commits the model's state |
| Outcomes.MakeRefused | 02-miniFS/src/internal/commands/execute.c:147-160 | mkdir and touch refuse long names, full inode tables and full block tables, in that order |
| Outcomes.WriteCommand | 02-miniFS/src/internal/commands/execute.c:323-354 | write succeeds or stops exactly when the model does; success commits the model's state |
| Outcomes.RemoveOutcome | 02-miniFS/src/internal/commands/execute.c:196-226 | clearing, releasing and committing removes the object and zeroes exactly the bytes hit |
| Outcomes.TargetFound | 02-miniFS/src/internal/commands/execute.c:196-203 | what a removal finds by name is in use, not the root and not the current directory |
| TornCommit.TornCommitExact | 02-miniFS/src/internal/fs/fs.c:206-216 | the old state is recovered if and only if no changed slot was written, the new one if and only if all were |
| TornCommit.TornWriteIff | 02-miniFS/src/internal/fs/fs.c:206-216 | for a write into the last block a sound volume opens if and only if the cut is before the inode's slot or behind the block's; which state, in each case |
| TornAppend.TornAppendIff | 02-miniFS/src/internal/fs/fs.c:206-216 | for any command that takes new blocks a sound volume opens if and only if nothing was written or every header that changed was |
| TornAppend.TornGrowthIff | 02-miniFS/src/internal/fs/fs.c:206-216 | that holds for a write that links new blocks |
| TornAppend.TornMakeIff | 02-miniFS/src/internal/fs/fs.c:206-216 | and for mkdir and touch |
| TornCommit.TornRemovalIff | 02-miniFS/src/internal/fs/fs.c:206-216 | for a removal whose clears left the committed tables whole (`TornStruckIff` covers the others) a sound volume opens if and only if nothing was written or the headers of the whole freed chain were |
| Struck.LoadHit | 02-miniFS/src/internal/fs/fs.c:284-287 | a zero on the first byte of a field of the committed tables opens to the tables with that field's low byte gone |
| Struck.HitOpensIff | 02-miniFS/src/internal/fs/fs.c:284-287 | a sound volume still opens if and only if that byte was zero or belongs to a parent field; which volume, in each case |
| Struck.KilledWhileClearing | 02-miniFS/src/internal/commands/execute.c:196-203 | killed after any number of the clears for matching records, a removal leaves a sound volume in which just those clears show |
| Struck.KilledBeforeCommit | 02-miniFS/src/internal/commands/execute.c:302 | killed behind its second clear, rm leaves a file that opens to a sound volume if and only if the clear is behind the tables, or the byte was zero, or it belongs to a parent field |
| TornRm.TornStruckIff | 02-miniFS/src/internal/fs/fs.c:206-216 | for an rm whose second clear hit a field of the committed tables a sound volume opens if and only if nothing was written and the hit does no harm, or the whole freed chain was written and the hit was overwritten or changed nothing |
| Struck.Inode35 | 02-miniFS/src/internal/commands/execute.c:302 | with 1024 inodes and blocks and a directory of one block, removing inode 35 hits the type field of block header 946 |
| Struck.CommitTyped | 02-miniFS/src/internal/fs/fs.c:206-216 | every commit leaves type codes of one byte, which the statements on single zeros ask for |
| Directory.RecordsRoundTrip | 02-miniFS/src/internal/fs/fs.c:129-167 | reading a directory undoes writing it: all records, in order |
| Directory.RecordsAppend | 02-miniFS/src/internal/commands/execute.c:173-181 | an appended 32-byte record is read back as one more record at the end |
| Directory.RecordsCleared | 02-miniFS/src/internal/fs/fs.c:284-287 | a zero at a record boundary clears one `used` flag and nothing else |
| Directory.NameReadsBack | 02-miniFS/src/internal/commands/execute.c:175-177 | a stored name reads back whole if and only if it is shorter than 27 bytes |
| Directory.ContentOnDisk | 02-miniFS/src/internal/fs/fs.c:300-308 | where each byte of an inode lies in the file |
| Directory.RecordOnDisk | 02-miniFS/src/internal/fs/fs.c:142-164 | no record straddles two blocks; record n is found at its place in its block |
| Removal.HopsExact | 02-miniFS/src/internal/fs/fs.c:280-283 | the walk follows (index - 1) / records-per-block links |
| Removal.ClearsItsRecord | 02-miniFS/src/internal/fs/fs.c:278-288 | the record asked for is the one cleared if and only if the index is 0, no multiple of the records per block, or the blocks are neighbours |
| Places.BoundaryPlace | 02-miniFS/src/internal/fs/fs.c:278-288 | at a boundary the zero hits the first byte stored in the block next on disk, an object's byte exactly if that block is owned and not empty |
| Places.BoundaryMisses | 02-miniFS/src/internal/fs/fs.c:280 | there the record asked for keeps its flag, unless the two blocks are neighbours |
| Places.ExtraPlaceExact | 02-miniFS/src/internal/fs/fs.c:278-288 | for every index whose walk stays in the table, the byte hit, read off the index, the chain and the record count |
| Witness.IsSound | 02-miniFS/src/internal/fs/fs.h:30-50 | a concrete volume of two files in a root directory of two blocks meets every invariant |
| Witness.RemovingOneFileDamagesAnother | 02-miniFS/src/internal/commands/execute.c:276-320 | on it `rm b` sets file a's byte to zero and leaves the record of b marked used, which is not the intended state |
| Reached.ThreeCommands | 02-miniFS/src/internal/commands/execute.c:230-354 | on a new volume of 3 inodes and 4 blocks `touch a`, `touch b` and `write a` lead to such a volume |
| Removal.TargetAligned | 02-miniFS/src/internal/fs/fs.c:284-287 | every such zero falls on a record boundary or into metadata, for any index |
| Removal.ClearContent | 02-miniFS/src/internal/fs/fs.c:284-287 | a zeroed byte of the file changes at most one byte of one inode, the one named |
| Removal.ClearRefines | 02-miniFS/src/internal/fs/fs.c:284-287 | on the model that is one byte of a file or one record's flag |
| Removal.UnflagAllRefines | 02-miniFS/src/internal/commands/execute.c:196-203 | the same for all records a removal clears |
| Removal.UnflagCommitted | 02-miniFS/src/internal/fs/fs.c:278-288 | a clear aimed at an existing record never reaches the metadata |
| Removal.ReleaseRefines | 02-miniFS/src/internal/commands/execute.c:304-318 | releasing an inode takes its object away and no other |
| Intended.FlagsCleared | 02-miniFS/src/internal/fs/fs.c:278-288 | clears on target mark precisely their records unused and change no other byte |
| Scribbles.ScribbledObjects | 02-miniFS/src/internal/fs/fs.c:284-287 | any list of zeros changes each object in exactly the bytes and flags it names, in whatever order |
| Scribbles.AsMeantIff | 02-miniFS/src/internal/commands/execute.c:196-203 | before an object is dropped, a list of zeros amounts to marking given records if and only if each zero is harmless and each record was marked or is hit |
| Intended.RmdirAsMeantIff | 02-miniFS/src/internal/commands/execute.c:186-227 | rmdir drops the directory, marks the records that matched unused and does nothing else, if and only if that holds of the bytes it hits |
| Intended.RmAsMeantIff | 02-miniFS/src/internal/commands/execute.c:276-320 | the same for rm, whose second clear must also stay in the block table |
| Intended.RmdirAsMeantChecked | 02-miniFS/src/internal/commands/execute.c:186-227 | the condition for rmdir read off the matching indices, the chain and the record count |
| Intended.RmAsMeantChecked | 02-miniFS/src/internal/commands/execute.c:276-320 | the same for rm, with the inode number as one more index |
| Intended.RmdirExactly | 02-miniFS/src/internal/commands/execute.c:186-227 | the state rmdir leaves, in every case |
| Intended.RmExactly | 02-miniFS/src/internal/commands/execute.c:276-320 | the state rm leaves whenever its second clear stays in the block table |
| Intended.SecondClearIff | 02-miniFS/src/internal/commands/execute.c:302 | the second clear of rm makes no difference if and only if it stays in the block table and is harmless behind the others |
| Intended.RmBehindRecords | 02-miniFS/src/internal/commands/execute.c:302 | it makes none for an inode number behind the record count, inside the chain and off its boundaries |
| Intended.RmAmongRecords | 02-miniFS/src/internal/commands/execute.c:302 | for an inode number below the record count whose clear is on target it makes none if and only if that record was marked unused or is hit before |
| Intended.RmdirIntended | 02-miniFS/src/internal/commands/execute.c:186-227 | when every matching record is cleared on target, rmdir is as meant |
| Intended.RmIntendedIff | 02-miniFS/src/internal/commands/execute.c:276-320 | when every matching record is cleared on target, rm is as meant if and only if its second clear stays in the table and is harmless |
| Intended.RmOutOfBounds | 02-miniFS/src/internal/commands/execute.c:302 | the walk leaves the block table if and only if the inode number exceeds (blocks + 1) times the records per block |
| Tree.DropKeepsTree | 02-miniFS/src/internal/commands/execute.c:221-224 | removing a directory keeps the parent links a tree if and only if no other directory has it as parent |
| Tree.InsertKeepsTree | 02-miniFS/src/internal/commands/execute.c:162-165 | a new directory under the current one keeps the tree |
| Tree.DepthBound | 02-miniFS/src/internal/commands/execute.c:118-122 | the root is fewer steps away than there are inodes |
| Tree.ClimbToRoot | 02-miniFS/src/internal/commands/execute.c:118-122 | repeated `cd ..` reaches the root in fewer steps than there are inodes |
| Runs.StepKeepsHealthy | 02-miniFS/src/internal/commands/execute.c:107-390 | every command keeps the tree, a live current directory and sane records, if directory removals are careful |
| Runs.CarelessBreaksTree | 02-miniFS/src/internal/commands/execute.c:186-227 | a removal that is not careful always breaks the tree |
| Runs.RunKeepsTree | 02-miniFS/src/internal/commands/execute.c:107-390 | over every run, through inode reuse and stale records, the tree and the live current directory remain |
| Runs.FileHoldsLog | 02-miniFS/src/internal/commands/execute.c:323-354 | over any interleaving of mkdir, touch, write, read and cd, a file, also one created on the way, holds what it held at the start and then exactly what was written to it, in order |
| Runs.ReadReturnsLog | 02-miniFS/src/internal/commands/execute.c:357-390 | and read shows exactly that |
| Runs.FileHoldsItsOwn | 02-miniFS/src/internal/commands/execute.c:276-354 | with removals that do what they are meant to, a file holds exactly what was written since its inode number was last freed |
| Format.NewSound | 02-miniFS/src/internal/fs/fs.c:35-58 | an initialised volume is sound and shows one empty root directory |
| Format.Init | 02-miniFS/src/internal/fs/fs.c:25-69 | the three writes leave a file that opens to that volume |
| Filesystem.Filesystem.Open | 02-miniFS/src/internal/fs/fs.c:72-99 | opening a committed file rebuilds the same counters and tables, at the root directory |
| Filesystem.Filesystem.FindFreeInode | 02-miniFS/src/internal/fs/fs.c:180-190 | the inode returned is EMPTY and none before it is; -1 exactly when none is |
| Filesystem.Filesystem.FindFreeBlock | 02-miniFS/src/internal/fs/fs.c:193-203 | the block returned is EMPTY and all before it are USED; -1 exactly when all are |
| Filesystem.Filesystem.UpdateSuperblock | 02-miniFS/src/internal/fs/fs.c:206-216 | writing slot by slot is the commit, byte for byte |
| Filesystem.Filesystem.AppendData | 02-miniFS/src/internal/fs/fs.c:219-275 | the walk and the loop do what `Pour` says, and report the exit |
| Filesystem.Filesystem.ReadData | 02-miniFS/src/internal/fs/fs.c:291-311 | the buffer of `inode.size` bytes is filled exactly with the file's bytes |
| Filesystem.Filesystem.ReadDir | 02-miniFS/src/internal/fs/fs.c:129-167 | the arrays of `inode.size` entries are filled exactly with all records in order |
| Filesystem.Filesystem.RemoveFromDir | 02-miniFS/src/internal/fs/fs.c:278-288 | the zero goes to the computed target, or the walk leaves the block table |
| Filesystem.Filesystem.FreeChain | 02-miniFS/src/internal/commands/execute.c:211-219 | the loop ends and frees exactly the chain, counting each block once |
| Filesystem.Filesystem.Mkdir | 02-miniFS/src/internal/commands/execute.c:141-183 | reply and new state are the model's, in the lowest free slots; a refusal changes nothing; after an exit the last committed state is recovered |
| Filesystem.Filesystem.Touch | 02-miniFS/src/internal/commands/execute.c:230-273 | the same for files, whose parent field is -1 |
| Filesystem.Filesystem.Lookup | 02-miniFS/src/internal/commands/execute.c:330-339 | the inode of a record that matches with none behind it that does, or -1 exactly without one |
| Filesystem.Filesystem.LookupDir | 02-miniFS/src/internal/commands/execute.c:124-134 | the inode of a record that matches with none before it that does, or -1 exactly without one |
| Filesystem.Filesystem.Write | 02-miniFS/src/internal/commands/execute.c:323-354 | reply and new state are the model's; after an exit the last committed state is recovered |
| Model.ReadExactly | 02-miniFS/src/internal/commands/execute.c:382-385 | the reply is the file's bytes if and only if there are fewer than 2^31, and empty otherwise |
| Filesystem.Filesystem.Print | 02-miniFS/src/internal/commands/execute.c:382-385 | the loop with its signed bound prints exactly that |
| Filesystem.Filesystem.Read | 02-miniFS/src/internal/commands/execute.c:357-390 | the reply is what `Shown` says of the file's bytes, or not found |
| Filesystem.Filesystem.Cd | 02-miniFS/src/internal/commands/execute.c:107-138 | reply and current directory are the model's |
| Filesystem.Filesystem.Rmdir | 02-miniFS/src/internal/commands/execute.c:186-227 | reply and new state are those of `RmdirEffect`, every byte hit included |
| Filesystem.Filesystem.Rm | 02-miniFS/src/internal/commands/execute.c:276-320 | reply and new state are those of `RmEffect`, every byte hit included |
| Session.EffectSteps | 02-miniFS/src/internal/commands/execute.c:447-459 | what each command does is a step of the model |
| Session.StrandedIff | 02-miniFS/src/internal/commands/execute.c:118-122 | a command leaves no current directory if and only if it is `cd ..` and the parent field names no directory |
| Session.RunScript | 02-miniFS/src/main.c:34-42 | any script keeps the volume sound; each state and reply is the exact effect of its command; it ends early only when a command lacks space, leaves the block table, or is such a `cd ..`, and after an exit the last state is recovered |
| Session.CarefulScript | 02-miniFS/src/main.c:34-42 | if no removal takes a directory that another has as parent, the tree stays and the current directory is never lost |
| Session.IsCareful | 02-miniFS/src/internal/commands/execute.c:186-203 | a check a caller can run before `rmdir`, true exactly for such removals |
| Session.FilesHoldTheirOwn | 02-miniFS/src/main.c:34-42 | in a script whose removals are as meant, every file holds what was written since its number was last freed |
| Session.FreshSession | 02-miniFS/src/main.c:27-42 | initialise, open and run any script: every state comes from one empty root directory by the model's steps |
| Scripts.StrandedSession | 02-miniFS/src/main.c:27-42 | a session of nine commands ends on a sound volume without a current directory |
| Scripts.StraySession | 02-miniFS/src/main.c:27-42 | a session of five commands ends with a look-up outside the block table |
| Words.SpansAreRuns | 02-miniFS/src/internal/utils/utils.c:32-43 | the words are exactly the maximal space-free runs, in order |
| Words.CountsAgree | 02-miniFS/src/internal/utils/utils.c:20-27 | the counting pass counts the words the extraction pass finds |
| Words.CountWords | 02-miniFS/src/internal/utils/utils.c:20-27 | the counting loop and its last test, shared by both tokenisers |
| Words.SplitLine | 02-miniFS/src/internal/utils/utils.c:7-46 | the token array is filled exactly with the words; nothing behind the terminator is read |
| Words.SplitUndoesJoin | 02-miniFS/src/internal/utils/utils.c:7-46 | splitting joined words gives them back, whatever spaces stand before, between and behind |
| Words.SplitRequest | 01-kernel_module/storage.c:318-358 | for any buffer: the count is that of all words, the pointers set are the starts of the words before the first NUL, spaces before it become NUL, and nothing else changes |
| Words.EveryPointerIff | 01-kernel_module/storage.c:326-352 | all counted pointers are set if and only if the first NUL, if any, stands directly behind a word and only spaces follow the run it is in |
| Words.NulBetweenWords | 01-kernel_module/storage.c:326-352 | a request for which a counted pointer is never set |
| Words.PointersReadWords | 01-kernel_module/storage.c:347-350 | the C string at each pointer is the word itself |
| Words.TokenisersAgree | 01-kernel_module/storage.c:210-215 | without vertical tab and form feed both tokenisers find the same words |
| Words.Separators | 01-kernel_module/storage.c:211-218 | exactly blank, tab, newline and carriage return separate words in a request; in a line also vertical tab and form feed |
| StorageDevice.RespondFits | 01-kernel_module/storage.c:279-287 | every reply to a request of at most 1023 bytes fits 2048 bytes with its terminator, and stored users stay that small |
| StorageDevice.FoundPrintable | 01-kernel_module/storage.c:279-287 | a formatted record fits the output buffer |
| StorageDevice.GetMeans | 01-kernel_module/storage.c:262-287 | get replies the five fields of the first taken cell with the surname, or not found, and keeps the table |
| StorageDevice.AddMeans | 01-kernel_module/storage.c:240-259 | add fills the first free cell with the five words in order and no other, or reports that there is none |
| StorageDevice.DeleteMeans | 01-kernel_module/storage.c:290-315 | delete frees the first taken cell with the surname, keeps its fields and all other cells, or replies not found |
| StorageDevice.MalformedMeans | 01-kernel_module/storage.c:164-192 | a wrong number of words or another first word leaves the table alone and is answered with the right format |
| StorageDevice.AddThenGet | 01-kernel_module/storage.c:240-288 | after an add, get replies the five words added, unless an earlier cell holds the surname, whose fields it then replies |
| StorageDevice.AddThenDelete | 01-kernel_module/storage.c:240-315 | delete undoes add for a surname not stored before |
| StorageDevice.PiecesExact | 01-kernel_module/storage.c:118-131 | reads of any sizes return the reply once, in order, and leave the rest |
| StorageDevice.EndOfReply | 01-kernel_module/storage.c:120-122 | a read that asks for something returns nothing exactly when the whole reply was read |
| StorageDevice.Device.Read | 01-kernel_module/storage.c:118-131 | a read returns the next part of the pending reply |
| StorageDevice.Device.Write | 01-kernel_module/storage.c:134-197 | any request is refused, or changes table and reply as `Respond` says of the words before its first NUL, within all buffers; it reads an unset pointer exactly when it is short enough and not all are set |
| StorageDevice.Device.FindUser | 01-kernel_module/storage.c:262-272 | the first taken cell with the surname, or -1 |
| StorageDevice.Drain | 01-kernel_module/storage.c:118-131 | successive reads are `Pieces` of the reply |

## Left out

- Retries, `lseek`, `open`, `stat` and `exit` around `minifs_read_block` and `minifs_write_block`: transfers are total; that no read goes past the end of the file is proved.
- `minifs_ls`, `minifs_help`, `minifs_debug`, `minifs_exit`, prompts, messages, and the usage errors for missing arguments.
- The addresses saved with the superblock: an arbitrary 20-byte string with the padding; opening ignores it.
- Type codes other than those the program writes: an image with another code is read as directory or USED.
- Allocation and freeing of memory; the three arrays of a directory listing are one array of records.
- Geometries whose block size is no multiple of 32 or whose size exceeds 32 bits.
- Format.Init: asks for equal block size and block count, because the source sizes one write by the other constant.
- Filesystem.Filesystem.Rm: after a lookup of block number 2^32 - 1 the program's behaviour is undefined; the model ends the command there.
- Uniqueness of names: the program permits duplicates.
- Session.RunScript: commands after a `cd ..` to a removed parent, where the program goes on with an inode that is no directory.
- StorageDevice.Device.Write: after a read of an unset pointer the program's behaviour is undefined; the model ends the call there.
- TornCommit.TornCommitExact: a cut inside one of the writes; a cut between two of them is covered.
- Struck.KilledBeforeCommit: a second clear that reaches the superblock, for which a block must be larger than the two tables.
- StorageDevice.Device.Read: a read before the first reply, for which the source follows a null pointer.
- The device's open counter, registration and log output.
- `03-sys_call`: a slot table over user copies.
