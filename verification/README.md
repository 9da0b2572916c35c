# Models of an xv6 file system, its system calls, and four other programs

This project models the lab file system of the repository (`lab5`) in layers, each
proved against a simpler view of the one below, and four other programs whose
correctness depends on order: a hash table with bucket locks, a prime sieve of
processes, user-level threads with their register switch, and memory mappings.

`dafny verify dfyconfig.toml` checks everything.

## Layers and files

The file system:

- `Blocks`, `Bitmap`: bytes of a block as bits and as little-endian words; the bitmap
  blocks stand for a set of used blocks.
- `Tree`, `BlockMap`: an inode's address slots and index blocks as a tree. The
  ownership invariant says that every address met in any tree is a data block that
  hangs at just that place, and that the used blocks are the reserved ones and these.
  Five layouts: `lab5/fs.c`, and the bigfile variants (template with a cap, inverted
  slots, no single-indirect level, sparse lookup).
- `Itrunc`, `Simulation`, `Content`, `Write`, `Reclaim`, `Runs`: truncation, the
  equivalence of two layouts, files as byte sequences, boot reclamation, whole runs.
- `FileSystem`: a class with the bitmap bytes, data blocks and inodes, whose methods
  are the code's loops, each proved against the function of the layers above.
- `Directory`, `DirectoryOps`, `Paths`, `Namex`: a directory file stands for a finite
  map from names to inode numbers; a path stands for a fold of lookups.
- `Links`, `LinkOps`: the link-count invariant of all inodes together, and `create`,
  `sys_link`, `sys_unlink` step by step over the inode table.
- `DirView`: the inodes and directory files on the disk stand for the nodes of `Links`,
  and each call on the disk has the effect described on nodes.
- `InodeTable`: the same table as a protocol of concurrent processes.

The rest: `HashTable`, `Sieve`, `Uthread`, `Mmap`, one file each. A program of several
threads or processes is a state with a function for one step of one of them; a run is
any sequence of enabled steps.

Where the code changes state in place, a method with the code's loops and branches is
proved equal to a specification function, and the properties are lemmas about that
function.

## What was found

- `sys_munmap` checks neither its length nor where its range lies. In the middle of a
  mapping it trims the end instead, past the end it leaves a wrong or negative length,
  and with a negative length it maps more, over other mappings too. `Mmap.MunmapExactly`
  gives the exact condition for every length; `Mmap.MiddleUnmap`, `Mmap.OverlappingUnmap`
  and `Mmap.MappingUnmap` are concrete cases.
- A `create` that fails at the wrong moment leaves an allocated inode with no links that
  nothing frees before the next boot (`InodeTable.StrandingRun`). `InodeTable.DoomedExactly`
  names the two kinds of `iput` to blame, and `InodeTable.StrandedOverRuns` says that
  without one nothing is left behind.
- `thread_create` writes past the end of the array exactly when no slot is free
  (`Uthread.CreateNeedsFree`), and enough creations get there (`Uthread.CreatesFill`).
- After a yield the current slot is RUNNING exactly when another thread was runnable
  (`Uthread.YieldRuns`); a thread alone goes on in state RUNNABLE (`Uthread.LoneYield`). So
  "no other thread is RUNNING" always holds, and "one is" does not.
- The range panic of the capped `bmap` is dead code.

## What is assumed

- The superblock is well formed, and block 0 and all metadata blocks are marked used.
  The limits BSIZE 1024, NINDIRECT 256 and 12 direct blocks are those of `lab5/fs.h`;
  the bigfile variants have 11, by `lab5/bigfile template/fs-gem.h`, and their file size
  limit of 10000 blocks is used for all of them.
- The copies between kernel and user memory are parameters: `ok` says how many chunks
  are copied before one fails. A chunk is copied as a whole or not at all.
- The current directory is still linked when a system call starts, so that the parent
  directory passed to `create` and `sys_link` is; `nlink` and inode numbers fit in 16 bits.
- In the inode table protocol, callers pass `iget` only numbers that a directory names or
  that `ialloc` just returned to them, change an inode only under its lock, name only
  inodes with links, and take the last link only of inodes that are not named.
- Keys of the hash table are not negative. Pipes of the sieve are unbounded.
- Addresses and lengths of mappings are unbounded integers, a negative address standing
  for one that has wrapped around; PGROUNDUP rounds up to a multiple of 4096, and the
  number of mapping slots is arbitrary. riscv.h and proc.h are not part of this model.

## Model

| member | source | states |
|---|---|---|
| `Blocks.BitsDetermine` | lab5/fs.c:76-78 | a bitmap byte is determined by its eight bits, so that setting and clearing a mask act on one bit only |
| `Blocks.MaskIs` | lab5/fs.c:77 | the mask of bit `k` is 1 shifted left by `k` |
| `Blocks.ByteValCounts` | lab5/fs.c:436-438 | the number a byte stands for starts at 0 and goes up by one with the byte |
| `Blocks.WordBytes` | lab5/fs.c:436-438 | an entry of an index block is four bytes, the lowest first |
| `Blocks.WordAfterSet` | lab5/fs.c:436-441 | storing an address at an entry of an index block changes that 4-byte word and no other |
| `Blocks.WordOfZero` | lab5/fs.c:82 | a zeroed index block has no entry |
| `Bitmap.MarkUsedView` | lab5/fs.c:78-82 | setting the bit of a free data block and zeroing it adds exactly that block to the used set and changes no other data block |
| `Bitmap.MarkFreeView` | lab5/fs.c:98-105 | clearing the bit of a block removes exactly that block from the used set |
| `Bitmap.DataWriteView` | lab5/fs.c:552-557 | writing a data block leaves every bit of the bitmap alone |
| `Bitmap.BitOfBlock` | lab5/fs.c:74-78 | the bit that the nested loops test at `(b, bi)` is that of block `b + bi` |
| `Bitmap.BitmapIsFlat` | lab5/fs.h:48-51 | the bitmap blocks hold one run of bits: block `b` has bit `b % 8` of byte `b / 8` |
| `Tree.FirstFreeIs` | lab5/fs.c:73-88 | the first free block is the lowest one that is not used |
| `Tree.AllocTakesFirstFree` | lab5/fs.c:66-90 | `balloc` takes the lowest free block, a data block nobody owns, and zeroes it; it answers 0 exactly on a full disk and then changes nothing |
| `FileSystem.Fs.Balloc` | lab5/fs.c:66-90 | the bitmap loops in place have exactly the effect and answer of allocating on the used set |
| `FileSystem.Fs.Bfree` | lab5/fs.c:92-106 | the bit update in place takes the block, whichever it is, out of the used set and changes no other bit; it panics exactly when the block is free |
| `BlockMap.PathOfIsBijection` | lab5/bigfile template/bmap-gem.c:16-65 | in every layout the split of a block index into direct, single (minus NDIRECT) and double (quotient and remainder) places is a bijection onto the leaves of the tree |
| `BlockMap.FileAddrIs` | lab5/bigfile (Inverted Inode)/fs.c:4-100 | where each variant keeps the address of a block, slot by slot and entry by entry |
| `BlockMap.RangeOfBmap` | lab5/bigfile template/bmap-gem.c:12-93 | which indices each variant maps (268, 10000, 65803 or 65547 blocks); the template answers 0 from 10000 on and the others panic at their limit |
| `Tree.SlotGrows` | lab5/fs.c:412-422 | filling an empty address slot keeps ownership: one fresh block hangs there, nothing else moves; it fails exactly on a full disk |
| `Tree.EntryGrows` | lab5/fs.c:430-441 | the same for an empty entry of an index block, whose block is the only one written |
| `Tree.WalkGrows` | lab5/bigfile template/bmap-gem.c:49-91 | going down up to three levels, and failing at any of them, only adds blocks on the way to the place asked for; ownership, other trees and data bytes are kept |
| `BlockMap.BmapIsPartialMap` | lab5/fs.c:405-444 | `bmap` is a partial map from (inode, index) to blocks, in all five layouts: panics exactly beyond capacity, keeps mapped addresses, maps fresh zeroed blocks, remaps nothing else, is idempotent, answers 0 only beyond the cap, in a lookup or on a full disk |
| `BlockMap.OtherLeavesKept` | lab5/bigfile template/bmap-gem.c:49-91 | mapping one index leaves the address of every other index of every inode as it was |
| `BlockMap.FullDiskStaysPut` | lab5/bigfile template/bmap-gem.c:68-74 | on a full disk a walk changes nothing, whatever level it stops at |
| `BlockMap.LookupAgrees` | lab5/bigfile (sparse files)/fs.c:12-109 | with `alloc` 0 the sparse `bmap` changes nothing, and it agrees with the allocating call wherever something is mapped |
| `FileSystem.Fs.BmapClassic` | lab5/fs.c:405-444 | the code in place refines the walk: 12 direct slots and one index block |
| `FileSystem.Fs.BmapTemplate` | lab5/bigfile template/bmap-gem.c:1-94 | 11 direct slots, single and double level, answer 0 from index 10000 on; its panic is dead code |
| `FileSystem.Fs.BmapInverted` | lab5/bigfile (Inverted Inode)/fs.c:4-100 | direct blocks in slots 2 to 12, index block in slot 1, master block in slot 0 |
| `FileSystem.Fs.BmapNoSingle` | lab5/bigfile (no single indirect)/fs.c:3-74 | 11 direct slots, then the master block at once |
| `FileSystem.Fs.BmapSparse` | lab5/bigfile (sparse files)/fs.c:6-111 | the allocation flag is honoured at each of the three levels |
| `FileSystem.Fs.GetSlot` | lab5/fs.c:412-418 | reading or filling `addrs[s]` in place, with the owner map kept up to date |
| `FileSystem.Fs.GetEntry` | lab5/fs.c:430-443 | reading or filling an entry of an index block in place |
| `FileSystem.Fs.MasterGet` | lab5/bigfile template/bmap-gem.c:53-90 | the three levels of the double-indirect case in place |
| `Itrunc.IndexFreed` | lab5/fs.c:463-472 | the loop over an index block frees its entries and the block itself, and never a block that is free |
| `Itrunc.IndexesFreed` | lab5/bigfile template/itrunc-gem.c:47-59 | the nested loops free every secondary block with its data blocks, from any entry on |
| `Itrunc.TruncateFreesExactlyTheTree` | lab5/bigfile template/itrunc-gem.c:3-67 | `itrunc` never reaches "freeing free block"; it frees exactly the inode's blocks, clears all slots and the size, and leaves every other tree alone, in all layouts |
| `Itrunc.NoSharingNoLeaks` | lab5/fs.c:405-477 | under the ownership invariant no block hangs at two places, and the used data blocks are exactly those that hang somewhere |
| `FileSystem.Fs.Itrunc` | lab5/fs.c:449-477 | the loops in place refine truncation and never panic |
| `FileSystem.Fs.FreeMasterBlock` | lab5/bigfile (Inverted Inode)/fs.c:149-169 | the two nested loops over a master block in place |
| `Simulation.WalkInverts` | lab5/bigfile (Inverted Inode)/fs.c:27-97 | under the permutation of address slots, a walk of the template layout corresponds to one of the inverted layout |
| `Simulation.BmapInverts` | lab5/bigfile (Inverted Inode)/fs.c:4-100 | below index 10000 the inverted `bmap` gives the template's answer, allocates the same block and ends in the related state |
| `Simulation.TruncateInverts` | lab5/bigfile (Inverted Inode)/fs.c:105-173 | the inverted `itrunc` frees what the template's frees and panics when it panics |
| `Simulation.CallsInvert` | lab5/bigfile (Inverted Inode)/fs.c:4-173 | every sequence of `bmap` (below 10000) and `itrunc` calls gives the same addresses and related states in both layouts |
| `Content.ChunksCount` | lab5/fs.c:506-511 | the chunk loop makes one round for each block touched |
| `Content.LookupBelowSize` | lab5/fs.c:506-507 | below the file size `bmap` takes only lookup branches, with either value of `alloc`, and never answers 0 or panics |
| `Content.ReadiReadsContent` | lab5/fs.c:495-520 | `readi` changes nothing, never panics, and returns exactly the bytes from `off` up to `min(off+n, size)`; 0 past the end or on wrap-around; -1 exactly when a copy fails, after a proper prefix |
| `Write.WriteLoopWrites` | lab5/fs.c:541-553 | the write loop puts a prefix of the source at its position, keeps every other byte of every file, and stops early only on a failed copy or a full disk |
| `Write.WriteLoopInPlace` | lab5/fs.c:541-553 | writing over mapped blocks allocates nothing and stops early only on a failed copy |
| `Write.WriteiSplices` | lab5/fs.c:530-564 | a `writei` that answers `tot` turns the content into the splice of the first `tot` source bytes, leaves all other files alone, keeps ownership and the absence of holes, and never panics |
| `Write.MaxFileIsMappable` | lab5/fs.h:27-29 | in the plain and the template variant the size limit is just what `bmap` can map; in the others it is 10000 blocks |
| `Write.WriteiRefuses` | lab5/fs.c:536-539 | within the file and without wrap-around a write is refused exactly when its last block cannot be mapped (in the variants that take their limit from the template: is number 10000 or later) |
| `Write.WriteLoopStops` | lab5/fs.c:541-553 | the loop goes on as far as the copies succeed, unless the disk fills up |
| `Write.WriteiStops` | lab5/fs.c:541-553 | a write that is not refused writes all pieces before the first copy that fails, unless the disk fills up |
| `FileSystem.Fs.Readi` | lab5/fs.c:495-520 | the loop in place refines the recursive specification |
| `FileSystem.Fs.Writei` | lab5/fs.c:530-564 | the loop in place refines the recursive specification |
| `Runs.StepIsGood` | lab5/fs.c:337-564 | from a good state no `bmap`, `readi`, `writei`, `itrunc` or freeing of an inode panics, and it changes the contents exactly as its answer says |
| `Runs.RunRefinesFiles` | lab5/fs.c:337-564 | every run of them stays good (nothing shared, leaked or missing), its contents are the splices and truncations its answers explain, and the inodes in memory remain those on the disk |
| `Runs.StaysSettled` | lab5/fs.c:476-564 | every operation but a bare `bmap` writes the inode it changes to the disk |
| `Runs.ReclaimAfterRun` | lab5/fs.c:373-393 | booting after any run: `ireclaim` does not panic, leaves no orphan, and any further run may start from its state |
| `Runs.FreshIsGood` | lab5/fs.c:66-106 | a file system with only its metadata blocks in use satisfies the invariant, with empty files |
| `Reclaim.InodeFreed` | lab5/fs.c:351-354 | the freeing branch of `iput` gives back exactly the inode's blocks and clears its type on the disk |
| `Reclaim.ReclaimFreesOrphans` | lab5/fs.c:373-393 | `ireclaim` never panics, leaves no inode with a type and no links, gives back exactly the orphans' blocks (counted), touches no other inode, and makes no holes |
| `Reclaim.ReclaimOnFields` | lab5/fs.c:373-393 | by type and link count alone: afterwards no inode has a type and no links; one without a type or with a link keeps its inode and its bytes; the blocks given back are those of the inodes with a type and no links |
| `Reclaim.NothingToReclaim` | lab5/fs.c:380-390 | where every allocated inode has a link, `ireclaim` changes nothing |
| `Reclaim.UntouchedFile` | lab5/fs.c:373-393 | a file whose inode is untouched keeps its bytes |
| `FileSystem.Fs.FreeInode` | lab5/fs.c:351-354 | the branch in place refines the specification |
| `FileSystem.Fs.Ireclaim` | lab5/fs.c:373-393 | the boot loop in place refines the specification |
| `Directory.NamecmpIsEquality` | lab5/fs.c:568-572 | comparing at most 14 characters accepts exactly equal names |
| `Directory.FieldHoldsName` | lab5/fs.c:625 | what `strncpy` puts into a name field reads back as the name |
| `Directory.CanonIs` | lab5/fs.c:568-572 | what a comparison sees of a name is its first 14 bytes |
| `Directory.MakeEntry` | lab5/fs.c:625-626 | the 16 bytes of an entry hold its number and its name |
| `Directory.EntryBytes` | lab5/fs.h:58-61 | the number lies in the first two bytes, the lower first, the name in the other 14, filled up with zeros |
| `Directory.EntryAt` | lab5/fs.c:585-589 | entry `k` lies at byte `16 * k` and is free exactly when its number is 0 |
| `Directory.FirstDeadIsFirst` | lab5/fs.c:617-623 | a new entry goes to the first free place: every entry before it is live |
| `Directory.FindsBinding` | lab5/fs.c:585-600 | the scan finds an entry exactly when the map of the directory binds the name, and the number it is bound to |
| `Directory.LinkAddsBinding` | lab5/fs.c:618-630 | an entry written at the first free place adds exactly one binding and keeps names unique and the size a multiple of 16 |
| `Directory.ClearRemovesBinding` | lab5/sysfile.c:222-224 | zeroing the entry of a name removes exactly that binding |
| `Directory.IsDirEmptyMeans` | lab5/sysfile.c:173-186 | with live entries for "." and ".." in front, no live entry from the third on means that only those two names are bound |
| `Directory.LinkKeepsDots` | lab5/fs.c:617-628 | a link leaves the first two entries of a directory alone |
| `Directory.ClearKeepsDots` | lab5/sysfile.c:222-224 | so does clearing the entry of a name other than "." and ".." |
| `Directory.DotsMade` | lab5/sysfile.c:276-280 | the two links `create` makes in a new directory put "." and ".." in front |
| `Directory.IsDirEmptyProper` | lab5/sysfile.c:173-186 | so `isdirempty` says yes exactly when no other name is bound |
| `DirectoryOps.WritesEntry` | lab5/fs.c:627-628 | writing one entry does all of it or nothing; over an old entry it cannot fail |
| `DirectoryOps.Dirlookup` | lab5/fs.c:576-600 | the loop over the file's bytes answers the binding of the name; "dirlookup read" is never reached |
| `DirectoryOps.Dirlink` | lab5/fs.c:604-631 | one more binding in the first free place and answer 0, or no change in any file and -1 because the name was taken, or because no entry is free and the disk is full or the directory at its largest |
| `DirectoryOps.ClearEntry` | lab5/sysfile.c:222-224 | the zeroing write of `sys_unlink` never falls short, so "unlink: writei" is not reached, and the binding is gone |
| `DirectoryOps.Isdirempty` | lab5/sysfile.c:173-186 | the loop in place; "isdirempty: readi" is never reached |
| `DirectoryOps.DoCalls` | lab5/fs.c:576-631 | any sequence of lookups, links and unlinks: each answer is right, so a lookup finds exactly what was linked and not unlinked since, and a link fails only for a taken name or in a state without room; no other file changes |
| `Paths.SkipelemShortens` | lab5/fs.c:647-670 | each step strictly shortens the path |
| `Paths.ElementsAreComponents` | lab5/fs.c:647-670 | iterating `skipelem` yields exactly the non-empty slash-separated components, cut to 14 bytes |
| `Paths.SingleName` | lab5/fs.c:657-666 | a path without slashes is taken off whole up to 14 bytes, and cut to its first 14 beyond |
| `Paths.JoinedApart` | lab5/fs.c:647-670 | non-empty names without slashes, of at most 14 bytes, joined by slashes are taken apart into just these names |
| `Paths.CutIsSameName` | lab5/fs.c:661-666 | to a directory the name taken off a path and the component compare equal |
| `Paths.RestEmptyIffLast` | lab5/fs.c:692 | the rest is empty exactly when the name was the last component, which is what `namex` tests |
| `Namex.ResolveIsLookupInParent` | lab5/fs.c:711-722 | `namei` of a path agrees with looking up its last name in the directory `nameiparent` answers |
| `Namex.OneElement` | lab5/fs.c:686-703 | one round of `namex` by its cases, against the meaning of the whole path |
| `Namex.Table.Enter` | lab5/fs.c:697-702 | lookup, unlock and put, with the reference moved on |
| `Namex.Table.Namex` | lab5/fs.c:676-709 | `namex` answers what folding lookups over the components gives; one reference more on success and none on failure, no lock left, no inode changed; it panics only for want of table slots |
| `Links.AllowedFits` | lab5/sysfile.c:215-231 | what an unlink takes away has a link left, so "unlink: nlink < 1" is never reached; an emptied directory had exactly one, and its parent keeps at least one |
| `Links.UnlinkAllowed` | lab5/sysfile.c:207-220 | an unlink is allowed exactly when the name is not "." or "..", is bound, and names a file, whatever its link count, or a directory that binds only those two |
| `Links.UnlinkEffect` | lab5/sysfile.c:222-234 | what it changes: the name goes, its inode has one link less, the parent of a directory too, and nothing else |
| `Links.LinkThenUnlink` | lab5/sysfile.c:145-234 | unlinking a name just linked is allowed and restores every inode |
| `Links.UnlinkThenLink` | lab5/sysfile.c:145-234 | linking a name just unlinked restores every inode, if another link was left |
| `Links.MakeThenUnlink` | lab5/sysfile.c:207-298 | unlinking a file or directory just made is allowed; its inode is left without links and the others are as before |
| `Links.OneLink` | lab5/sysfile.c:217-220 | an empty directory is named once, and is no one's parent |
| `Links.TwoLinks` | lab5/sysfile.c:225-228 | the parent of a directory has a link besides the child's ".." |
| `Links.LinkCounts` | lab5/sysfile.c:145-157 | adding a name and one to `nlink` keeps every count right |
| `Links.NewDirCounts` | lab5/sysfile.c:273-289 | ".." counts for the parent, "." for nobody |
| `Links.UnlinkCounts` | lab5/sysfile.c:222-234 | removing a name, and a directory's ".." with it, keeps every count right |
| `Links.FileKeepsTree` | lab5/sysfile.c:139-161 | names for files do not disturb the tree of directories |
| `Links.NewDirKeepsTree` | lab5/sysfile.c:276-289 | a new directory hangs below the one that names it |
| `Links.UnlinkKeepsTree` | lab5/sysfile.c:207-234 | removing a file or an empty directory leaves a tree, and every name still leads to a linked inode |
| `Links.FreeKeeps` | lab5/fs.c:342-361 | freeing an inode without links disturbs no count and no directory |
| `Links.EventKeepsSound` | lab5/sysfile.c:123-302 | each change and each reference taken or dropped keeps the counts, the tree, and that an inode without links is still referred to |
| `Links.RunKeepsSound` | lab5/sysfile.c:123-302 | over every run `nlink` is the number of names in live directories other than ".", and once nothing is held every allocated inode has a link |
| `Links.MadeSound` | lab5/fs.c:681-682 | the invariant holds of a root directory that names itself |
| `LinkOps.Ialloc` | lab5/fs.c:199-220 | a blank inode under the first free number, with a reference, or none when all are taken |
| `LinkOps.TakeBack` | lab5/sysfile.c:163-167 | the label bad undoes the link count |
| `LinkOps.SysLink` | lab5/sysfile.c:123-170 | succeeds exactly when the old path is a file, the new name is free in an existing directory and the write works; then one name and one link more, else nothing has changed; references and locks are balanced |
| `LinkOps.Remove` | lab5/sysfile.c:222-234 | the changes of `sys_unlink` in the order of the code |
| `LinkOps.SysUnlink` | lab5/sysfile.c:188-243 | succeeds exactly for a file or an empty directory under a proper name; the inode goes when it was the last link and nobody holds it; no inode is locked twice |
| `LinkOps.Fill` | lab5/sysfile.c:273-298 | from the first write to the new inode to success or the label fail |
| `LinkOps.Create` | lab5/sysfile.c:245-302 | returns the existing file for T_FILE, makes a new inode with its links right, or leaves everything as it was on every failure path; the result is locked and referenced once |
| `LinkOps.CreatedWhen` | lab5/sysfile.c:265-301 | where the name is new, `create` makes an inode exactly when a number is free and every entry can be written; it has the lowest free number, one link and, if a directory, "." and "..", and the parent of a directory has one link more |
| `LinkOps.CreateAgain` | lab5/sysfile.c:256-263 | creating the same name again returns the same inode exactly for a file or device opened as a file, and changes nothing |
| `DirView.Lookup` | lab5/fs.c:576-600 | `dirlookup` on the disk answers what the directory's node binds |
| `DirView.Link` | lab5/fs.c:604-631 | `dirlink` on the disk is the step on nodes; when there is no room no entry is free and the disk is full or the directory at its largest |
| `DirView.Clear` | lab5/sysfile.c:222-224 | the clearing write is the removal of the name from the node, and keeps "." and ".." in front |
| `DirView.IsEmpty` | lab5/sysfile.c:173-186 | `isdirempty` on the disk decides whether the node may be removed |
| `DirView.SetLinks` | lab5/sysfile.c:145-146 | setting `nlink` and `iupdate` change that count only; every file keeps its bytes |
| `DirView.Free` | lab5/fs.c:351-354 | the freeing branch of `iput` takes the node away and leaves all others, and the bytes of their files |
| `DirView.Allocate` | lab5/fs.c:199-220 | `ialloc` on the disk gives the first free number a blank node; every file keeps its bytes |
| `InodeTable.SlotFound` | lab5/fs.c:255-270 | the scan of `iget` answers the live entry for the number, else the first unused one, else none |
| `InodeTable.IgetKeeps` | lab5/fs.c:247-278 | `iget` of a linked or freshly claimed number keeps the invariant, also when it joins an entry that is just being freed |
| `InodeTable.LoadKeeps` | lab5/fs.c:304-317 | loading keeps the invariant |
| `InodeTable.IputKeeps` | lab5/fs.c:340-362 | the test and the decision of `iput` keep the invariant |
| `InodeTable.FreeDiskKeeps` | lab5/fs.c:351-353 | so does clearing the type on the disk with the table lock released |
| `InodeTable.IallocKeeps` | lab5/fs.c:206-214 | so does claiming an inode, also one whose old entry is still in the table |
| `InodeTable.FinishKeeps` | lab5/fs.c:358-362 | so does the late decrement |
| `InodeTable.StepKeeps` | lab5/fs.c:199-363 | every step of every process keeps the invariant |
| `InodeTable.EveryRunIsSafe` | lab5/fs.c:199-363 | under every interleaving of any number of processes: entries in use serve different inodes and count their references; "ilock: no type" never fires and `ilock` leaves what is on the disk; `acquiresleep` inside `iput` never waits |
| `InodeTable.ClaimStays` | lab5/fs.c:206-214 | no step of another process changes an inode between its `ialloc` and the `iget` that follows |
| `InodeTable.TypeStays` | lab5/fs.c:247-318 | no step changes the type on the disk of an inode that a process holds and is not freeing |
| `InodeTable.AllocatedAsAsked` | lab5/fs.c:199-318 | over every run, a process that has allocated an inode finds it, once locked and loaded, with the type it asked for |
| `InodeTable.StageProceeds` | lab5/fs.c:247-363 | every process inside `ialloc`, `ilock` or `iput` can take its next step, unless `iget` finds the table full |
| `InodeTable.LockHolderProceeds` | lab5/fs.c:320-328 | a held sleep lock is held by a process that refers to the inode and, when inside no call, can release it |
| `InodeTable.ReferencesConserved` | lab5/fs.c:247-363 | over every run the references a process holds are those it took by `iget` and `idup` less those it gave back by `iput` |
| `InodeTable.FreersKeep` | lab5/fs.c:337-363 | at most one process is freeing the inode of an entry |
| `InodeTable.DoomedExactly` | lab5/fs.c:337-363 | an inode is doomed to be left without links and without anybody to free it exactly if it was, or if the step is the put to blame: of an inode without links on the disk, either the last put of an entry nobody has loaded, or with one other reference left, of a process past its own test |
| `InodeTable.DoomedOverRuns` | lab5/fs.c:337-363 | the same over every run |
| `InodeTable.StrandedIsDoomed` | lab5/fs.c:337-363 | what nobody is left to free was doomed, and what is doomed is so left once no put is under way |
| `InodeTable.StrandedOverRuns` | lab5/fs.c:337-363 | over every run from a disk without orphans an inode is left behind only if some put of the run is to blame, and whenever no put is under way exactly if one is; otherwise `iput` misses no unlinked inode |
| `InodeTable.StrandingRun` | lab5/fs.c:337-363 | a run in which that happens: a `create` fails on an inode number given out again while an `iput` of its predecessor is in its unlocked window |
| `InodeTable.Itable.Iget` | lab5/fs.c:247-278 | the critical section in place refines the step |
| `InodeTable.Itable.Load` | lab5/fs.c:304-317 | the load in place; in a reachable state no panic |
| `InodeTable.Itable.Iput` | lab5/fs.c:340-361 | the first critical section in place; in a reachable state no wait |
| `HashTable.UpdateIsPut` | lab4/notvx6/ph-with-mutex-locks.c:51-52 | updating the entry found changes the value of that key only and keeps the chains |
| `HashTable.LinkIsPut` | lab4/notvx6/ph-with-mutex-locks.c:30-38 | linking a new entry in front adds that key only and keeps the chains |
| `HashTable.FoundInBucket` | lab4/notvx6/ph-with-mutex-locks.c:40-48 | a key is found only in the bucket of its remainder by 5 |
| `HashTable.StepOnMap` | lab4/notvx6/ph-with-mutex-locks.c:40-58 | of all steps of a put exactly one takes effect on the map, all at once |
| `HashTable.StepOnOther` | lab4/notvx6/ph-with-mutex-locks.c:40-58 | no step disturbs a thread that is walking or inserting elsewhere |
| `HashTable.StepKeeps` | lab4/notvx6/ph-with-mutex-locks.c:40-80 | every step of every thread keeps the invariant |
| `HashTable.EveryRunIsALinearRun` | lab4/notvx6/ph-with-mutex-locks.c:40-80 | at any moment of any interleaving the chains end, have distinct keys of the right bucket, and hold what the puts, one after another in the order they took effect, leave in a map; each thread's puts are in program order |
| `HashTable.NoneMissing` | lab4/notvx6/ph-with-mutex-locks.c:71-93 | when all threads have finished every key is found, given that the number of threads divides the number of keys |
| `HashTable.NoKeysMissing` | lab4/notvx6/ph-with-mutex-locks.c:82-93 | then `get_thread` counts 0 missing keys |
| `HashTable.MissingCounts` | lab4/notvx6/ph-with-mutex-locks.c:82-93 | what `get_thread` counts is the number of positions whose key has no entry |
| `HashTable.NoDeadlock` | lab4/notvx6/ph-with-mutex-locks.c:40-58 | while keys are left some thread can go on |
| `HashTable.EveryRunEnds` | lab4/notvx6/ph-with-mutex-locks.c:40-80 | every schedule has at most `n * (n + 5)` steps for `n` keys |
| `HashTable.MaximalRun` | lab4/notvx6/ph-with-mutex-locks.c:71-93 | a run that cannot go on has left every key in the table |
| `HashTable.Table.Put` | lab4/notvx6/ph-with-mutex-locks.c:40-58 | the critical section in place is one update of the map |
| `HashTable.Table.Insert` | lab4/notvx6/ph-with-mutex-locks.c:30-38 | the insertion in place |
| `HashTable.Table.Get` | lab4/notvx6/ph-with-mutex-locks.c:60-69 | the walk in place finds the entry of the key, or none |
| `HashTable.Table.GetThread` | lab4/notvx6/ph-with-mutex-locks.c:82-93 | the number of keys that are not in the table |
| `Sieve.StepKeeps` | primes.c:26-47 | every step of every process keeps the invariant |
| `Sieve.GotIsPrefix` | primes.c:26-44 | each stage was given a beginning of the numbers up to `n` that the primes before it do not divide, and its prime is the first of them |
| `Sieve.HeadIsPrime` | primes.c:27-39 | the first number left is a prime |
| `Sieve.HeadsCover` | primes.c:26-44 | a prime up to `n` cannot be filtered away before it is a head |
| `Sieve.EveryMoment` | primes.c:15-47 | at every moment of every schedule the printed values are primes up to `n`, in order, without a gap |
| `Sieve.ExactlyThePrimes` | primes.c:15-47 | when the first process has exited, exactly the primes up to `n` were printed, each once, in order |
| `Sieve.NeverStuck` | primes.c:26-47 | until then some process can go on |
| `Sieve.EveryRunEnds` | primes.c:26-47 | every schedule has at most `n * (2n + 3)` steps |
| `Sieve.MaximalRun` | primes.c:15-47 | a run that cannot go on has printed exactly the primes |
| `Sieve.ReadLoop` | primes.c:26-44 | the loop of one process writes the numbers its prime does not divide and forks at the first |
| `Uthread.PickIsNearest` | lab4/uthread.c:46-62 | the scheduler picks the runnable slot that is nearest in cyclic order, the current one last, and none only when none is runnable |
| `Uthread.StepKeeps` | lab4/uthread.c:42-99 | no slot but the current one is RUNNING, after any yield, exit, creation or computation |
| `Uthread.CreateNeedsFree` | lab4/uthread.c:82-92 | a thread is created within the array exactly when some slot is free |
| `Uthread.CreatesFill` | lab4/uthread.c:78-93 | from any state some number of creations fills every slot and the next one overruns the array |
| `Uthread.YieldRuns` | lab4/uthread.c:95-99 | after a yield the current slot is RUNNING exactly when another thread was runnable; otherwise nothing changes but its own state, which stays RUNNABLE |
| `Uthread.LoneYield` | lab4/uthread.c:64-75 | a concrete single thread that is RUNNABLE after it has yielded |
| `Uthread.ExitFrees` | lab4/uthread.c:42-76 | an exit frees the slot and another thread, which was runnable, runs; nothing else changes state |
| `Uthread.StacksApart` | lab4/uthread.c:17-27 | as long as a slot holds a stack, stacks of different slots do not overlap |
| `Uthread.ResumedAsLeft` | lab4/uthread_switch.S:9-40 | over every run a thread is switched in with exactly the 14 registers of its last switch-out, or with its function and its own stack top if it was created since |
| `Uthread.FirstRun` | lab4/uthread.c:82-92 | whatever happens in between, a new thread is first switched in with `ra` at its function, `sp` at the top of its own stack and every other register 0 |
| `Uthread.WaitShrinks` | lab4/uthread.c:48-66 | a runnable thread that is passed over comes strictly closer |
| `Uthread.BoundedWaiting` | lab4/uthread.c:48-66 | a waiting thread runs within one schedule for each other slot, whatever the threads do |
| `Uthread.TurnIsEvent` | lab4/uthread.c:105-151 | a turn of the counting program ends in a yield or an exit, with the scheduler's choice and states |
| `Uthread.MainBegins` | lab4/uthread.c:153-165 | initialisation, three creations and an exit lead to the first turn of a, with `ra` at its function, `sp` at the top of slot 1's stack and the rest 0, and b and c waiting in the same way in slots 2 and 3 |
| `Uthread.CountersInStep` | lab4/uthread.c:105-165 | for every loop bound and number of slots `c_n >= a_n >= b_n >= c_n - 1` at every switch, and the program ends with all three equal to the bound |
| `Uthread.Threads.constructor` | lab4/uthread.c:35-40 | `thread_init` makes slot 0 the running one |
| `Uthread.Threads.Store` | lab4/uthread_switch.S:11-24 | the fourteen stores, word by word, and no other word changes |
| `Uthread.Threads.Load` | lab4/uthread_switch.S:26-39 | the fourteen loads |
| `Uthread.Threads.ThreadSwitch` | lab4/uthread_switch.S:9-40 | saves the registers in one context, loads them from the other, and changes no other word |
| `Uthread.Threads.ThreadSchedule` | lab4/uthread.c:42-76 | the search and the switch in place refine the specification |
| `Uthread.Threads.ThreadCreate` | lab4/uthread.c:78-93 | the first free slot becomes runnable; word 0 of its context is the function, word 1 the top of its stack, the rest 0; without one the array is overrun, and reported |
| `Uthread.Threads.ThreadYield` | lab4/uthread.c:95-99 | never exits |
| `Uthread.Threads.ThreadExit` | lab4/uthread.c:120-121 | exits the program exactly when no other thread is runnable |
| `Mmap.MmapKeepsInv` | lab5/sysfile.c:531-563 | a mapping of positive length keeps live ranges page-aligned, non-empty and disjoint, each with a reference to its file |
| `Mmap.MmapMaps` | lab5/sysfile.c:548-566 | the new range was unmapped before, maps to consecutive file positions, and no other address changes |
| `Mmap.MmapRefused` | lab5/sysfile.c:526-544 | `mmap` fails exactly for a shared writable mapping of a file not open for writing, or when every slot is in use, and then changes nothing |
| `Mmap.MmapPlace` | lab5/sysfile.c:548-554 | the mapping is placed at 0x40000000 or right after the live range that ends last |
| `Mmap.MmapNeedsLength` | lab5/sysfile.c:531-563 | for every length, the invariant is kept exactly when it is positive |
| `Mmap.MunmapRefused` | lab5/sysfile.c:583-592 | `munmap` fails exactly when no mapping holds the first address, and then changes nothing |
| `Mmap.MunmapRemoves` | lab5/sysfile.c:598-610 | a prefix, a suffix or a whole mapping in whole pages: exactly that range is unmapped |
| `Mmap.MunmapExactly` | lab5/sysfile.c:584-612 | for every address in a mapping and every length, unchecked as the code leaves it: `munmap` does what it promises if and only if the length is 0, or is a positive number of whole pages and the range ends where the mapping ends or starts where it starts and is shorter |
| `Mmap.MunmapWrong` | lab5/sysfile.c:602-610 | what goes wrong otherwise, case by case |
| `Mmap.MunmapFails` | lab5/sysfile.c:602-610 | in each of those cases the promise is broken |
| `Mmap.MiddleUnmap` | lab5/sysfile.c:607-610 | a concrete middle page that stays mapped while the last page goes |
| `Mmap.OverlappingUnmap` | lab5/sysfile.c:602-606 | a concrete negative length that makes two live ranges overlap |
| `Mmap.MappingUnmap` | lab5/sysfile.c:602-606 | a concrete negative length that maps an address that was not mapped |
| `Mmap.RunKeepsMappings` | lab5/sysfile.c:510-613 | over every run of allowed calls the invariant holds and each address is mapped to what the last call about it said, at its original file position |
| `Mmap.Proc.SysMmap` | lab5/sysfile.c:510-568 | the slot and base loops in place refine the specification |
| `Mmap.Proc.SysMunmap` | lab5/sysfile.c:572-613 | the search and the three cases in place refine the specification |

## Left out

- The log, the buffer cache and crash recovery: a system call is atomic on the disk, except in `InodeTable`.
- Device numbers and `major`/`minor`: one device only, so the device test of `sys_link` always passes.
- Partial failing copies: a chunk whose copy fails changes nothing.
- `itrunc` of the layouts without a single-indirect level and with sparse lookup: the repository has none; theirs is the one the layout calls for.
- `Fs` keeps in-memory inodes by number and not in table slots; slots, references and locks are in `Namex`, `LinkOps` and `InodeTable`.
- `LinkOps.Create`: like `SysLink` and `SysUnlink` it runs over nodes; `DirView` proves call by call, and not for a whole system call, that the disk does the same.
- The `valid` flag in `Namex` and `LinkOps`: there a system call runs alone, and an inode in the table is loaded; `InodeTable` has the flag.
- Operating inside a directory that has been unlinked.
- Scanning order of `ialloc` under concurrency: in `InodeTable` any free inode may be claimed.
- `Mmap.MmapKeepsInv`: overflow of a C int or of a 64-bit address is not modelled.
- `Uthread.Threads.ThreadCreate`: what lies behind the array and is overwritten is not modelled.
- `vma_unmap`, page faults, file descriptors, `sys_exec`, `sys_pipe`, argument fetching.
- Symbolic links: the variants of `sys_open`, `sys_symlink` and `sys_readlink`.
- Printing, timing, thread creation and joining, stack contents, instruction encoding.
- The remaining small user programs, which would add only easy members.
