# Verified models of llvmbox's algorithmic cores

llvmbox ships a small support library, a port of the BSD `fts` file walker, the `xar` archiver
and the compiler-rt runtime. This project models the parts of them that hold an algorithm and
proves what callers rely on. `dafny verify dfyconfig.toml` checks all of it.

- **Smoothsort** (`Words`, `LeonardoNumbers`, `Leonardo`, `LeonardoForest`, `ForestRuns`,
  `Smoothsort`, `Qsort`):
  `lb_qsort` sorts in place by growing a forest of Leonardo heaps over the array and taking it
  apart again. The bit set and the shift that stand for the forest are numbers; the orders they
  encode, the heaps, and the order of the roots are invariants of both loops.
- **SHA-256** (`Sha256Spec`, `Sha256Constants`, `Sha256Example`, `Sha256`, `Sha256Stream`): the
  streaming hasher against FIPS 180-4, and that definition against the roots its constants are
  taken from and a published digest.
- **Paths** (`Slashes`, `PathMeaning`, `PathDraft`, `PathClean`): the in-place normalizer against
  the meaning of a path, which is whether it is rooted, how many ".." lead it, and its names.
- **fts** (`FtsMachine`, `FtsTour`, `FtsSeen`, `FtsStray`, `Fts`, `FtsWalk`, `FtsPow2`): `fts_read`
  as a step of a machine on values, whole runs of that machine as the tour of a possibly cyclic
  directory graph, and the linked nodes and the shared, growing path buffer as an implementation
  of it.
- **Integer to float** (`Rounding`, `IntToFloat`, `FloatBits`): twelve conversions of compiler-rt, generic in
  the width of the integer and the precision of the float, against rounding to nearest with
  ties to even as IEEE 754-2019 defines it.
- **Wide words** (`WideMultiply`, `WideShift`): products and shifts of double words.
- **Base64** (`Base64`, `Base64Size`, `Base64Bands`): the encoder of the xar tool, the size of the
  buffer it allocates, and the decoder of the xar library.
- **The xar heap** (`XarHeap`): where the archive puts digest, signatures and file data, with
  duplicates rewound.
- **The xar trees** (`XarTree`, `XarCopy`): stackless iteration, lookup by path, and the copy
  of one archive's files into another with two stacks.

`Sequences` and `Wrappers` hold what several of them use.

Code that updates variables, arrays or linked nodes is modelled by methods on arrays and classes
and proved against functions on values; what is promised is then proved of those functions.

## What the code does not do

Where a promise does not hold of the code, the code is modelled as it is. Each entry gives the
condition under which the promise holds and a case in which it does not.

- `path_cleann` counts all characters it copies, so what it returns is the length of its result
  exactly if no name is taken back (`PathClean.PathCleann`, `PathDraft.CopiedIs`); it is not for
  "a/.." (`PathDraft.TakenBack`).
- `path_join` does not cut the length it passes on, so it reads behind its buffer exactly if both
  parts and the separator are longer than that, and it returns without complaint whenever what
  it finds there cleans to something short enough (`PathClean.PathJoin`). In a buffer of any size,
  "." and a name that leave no room for the end mark are joined without the name's last character
  (`PathClean.JoinedWrongly`).
- The path buffer of fts shows a directory's path without its last character after an empty,
  readable root named with a trailing separator was read; exactly then
  (`Fts.Stream.Read`, `Fts.Stream.ClipShows`, `Fts.Stream.KidNotClipped`).
- When a directory entry's path outgrows the buffer, `fts_build` looks at that entry through the
  pointer it took before the buffer moved. What such a look reports is a parameter of the model.
  A read is the machine's step in the file system as it is seen that way (`Fts.Stream.Read`), and
  the right step whatever is reported exactly if no entry that is looked at outgrows the buffer
  (`Fts.Stream.RightUnlessMisled`). A walk ends all the same (`FtsWalk.Walk`); it returns the tours
  of its roots, whatever is reported, exactly if no read of it goes astray (`FtsStray.WalkRight`),
  which where every entry is looked at is exactly if the path of every file fits in the buffer the
  walk starts with (`FtsStray.WalkShort`, `FtsWalk.Walk`). An entry at a path too long to be found
  can come back as a regular file (`FtsWalk.Misreads`).
- Where links are counted instead of looking at every entry, a listed directory is missed exactly
  if the directory's link count is at least 2 and exceeds the number of directories listed in it
  by less than 2, or with "." and ".." listed is less than that number (`FtsTour.LinksAreRight`);
  so it is if its directory has two links only (`FtsTour.MissedUncounted`). Where the counts are
  right, a run leaves out no directory (`FtsTour.NothingLeftOut`).
- The 128-bit `wideMultiply` is short by 2^128 exactly when the sum that makes the low word
  carries out of it (`WideMultiply.WideMultiply128`, `WideMultiply.CarryLost`).
- An archive that has signatures but no checksum for its table of contents is written without
  the signatures, but with as many bytes that were given up behind the live heap as there are,
  up to their length; the data lies that much before the recorded offsets, which are right in
  general only if there is a checksum or the signatures are empty (`XarHeap.Archive.Close`,
  `XarHeap.Archive.OffsetsRight`), and never for a first file (`XarHeap.LostWithoutDigest`).
- The Base64 decoder looks at the byte behind its input exactly if that ends in the first of two
  padding characters, and then needs the second there (`Base64.BehindMatters`,
  `Base64.DecodesAlone`); so it does for "AA=" (`Base64.BehindWitness`).
- The Base64 encoder sizes its buffer in single precision. From 3 * 2^22 bytes on, that is enough
  exactly if it would be for what is left of the length after a multiple of six times the last
  place a float of that size has, but for two lengths (`Base64Bands.SizeSuffices`,
  `Base64.ToBase64`). So it is for lengths up to 2^24, from there to 3 * 2^23 for those that do not
  leave 1 when divided by 12, and so on (`Base64Bands.SizeInBands`); the first it is not enough for
  is 16777225 (`Base64Bands.LeastTooLong`).
- The iterators over trees keep the path to the current list as text, and look into it when they
  go up even if it is null. Whether that happens depends on three things about the path only:
  whether it starts at the root, how many parts it has, and whether there is a separator in it
  (`XarTree.CountedIs`, `XarTree.VisitAll`); it never does if each has a character that is not a separator
  (`XarTree.PathLasts`), but below "a" and two empty keys (`XarTree.PathLost`).

## Model

| member | source | states |
|---|---|---|
| Leonardo.NextTree | llvmbox-tools/llvmboxlib.c:922-928 | shifting the bit set to its next set bit, as `pntz` and `shr` do, moves from one tree to the next, and ends because the number shrinks |
| Leonardo.OrdersTrim | llvmbox-tools/llvmboxlib.c:963-972 | dropping trailing zeros of the bit set and raising the shift stands for the same trees |
| Leonardo.OrdersShl | llvmbox-tools/llvmboxlib.c:952-961 | shifting up and lowering the shift by as much stands for the same trees |
| Leonardo.OrdersAdjacent | llvmbox-tools/llvmboxlib.c:1061-1064 | low bits 11 mean the two rightmost trees have consecutive orders |
| Leonardo.OrdersOr1 | llvmbox-tools/llvmboxlib.c:1081 | setting the lowest bit adds one tree of the current order at the right |
| Leonardo.OrdersSplitLeft | llvmbox-tools/llvmboxlib.c:1093-1096 | shift, exclusive or with 7, shift: the left child's tree takes the place of the tree taken apart |
| Leonardo.OrdersSplitRight | llvmbox-tools/llvmboxlib.c:1098-1099 | shift and or: the right child's tree is put in front of it |
| LeonardoNumbers.LeonardoExceedsPtrdiff | llvmbox-tools/llvmboxlib.c:1045 | from order 90 on a tree is larger than any object, so the table of 96 sizes suffices |
| Smoothsort.OrderBound | llvmbox-tools/llvmboxlib.c:1045 | a tree that fits in the array has an order below 90, with all smaller orders' sizes in the table |
| Smoothsort.Precompute | llvmbox-tools/llvmboxlib.c:1058 | the table holds the Leonardo number of every order whose tree fits in the array |
| Smoothsort.ChainedUnique | llvmbox-tools/llvmboxlib.c:930-950 | a rotation along a chain of positions is determined by the chain |
| Smoothsort.Cycle | llvmbox-tools/llvmboxlib.c:930-950 | each element of the chain moves to the place before it, the first to the last place, nothing else moves |
| Smoothsort.Sift | llvmbox-tools/llvmboxlib.c:974-1001 | the array becomes what sinking the root by swaps makes of it; all reads and the chain stay in range |
| Smoothsort.Trinkle | llvmbox-tools/llvmboxlib.c:1003-1042 | the array becomes what moving the root left over the other roots and sinking it makes of it; all reads and the chain stay in range |
| LeonardoForest.SiftedHeap | llvmbox-tools/llvmboxlib.c:974-1001 | sinking the root of a tree whose two subtrees are heaps makes the tree a heap, whose root is an old root or child and bounds both |
| LeonardoForest.SettledOrdered | llvmbox-tools/llvmboxlib.c:1017-1041 | where the moving element stops, sinking it leaves heaps with ascending roots |
| LeonardoForest.TrinkledOrdered | llvmbox-tools/llvmboxlib.c:1003-1042 | given trees broken at most at the first root, trinkling restores every heap and ascending roots, without exceeding any bound the roots had |
| LeonardoForest.HeapRootIsMax | llvmbox-tools/llvmboxlib.c:1003-1042 | the root of a heap bounds its tree |
| LeonardoForest.OrderedRootIsMax | llvmbox-tools/llvmboxlib.c:1085-1103 | in an ordered forest the rightmost root bounds everything left |
| LeonardoForest.SwapPermutes | llvmbox-tools/llvmboxlib.c:930-950 | a swap keeps the multiset of the prefix and everything beyond it |
| ForestRuns.GrowMerge | llvmbox-tools/llvmboxlib.c:1061-1064 | joining two trees of consecutive orders under a new root keeps the invariant of the growing loop |
| ForestRuns.GrowLasting | llvmbox-tools/llvmboxlib.c:1066-1067 | a tree that will not be joined again is trinkled: it and what is left of it are then ordered as far as the loop needs |
| ForestRuns.GrowPassing | llvmbox-tools/llvmboxlib.c:1068-1070 | a tree that will be joined later only needs to be a heap |
| ForestRuns.GrowPush | llvmbox-tools/llvmboxlib.c:1072-1082 | a single element becomes a tree of order 1, or 0 beside one of order 1 |
| ForestRuns.RestIsOrdered | llvmbox-tools/llvmboxlib.c:1066 | when the size test says a tree is there to stay, all trees left of it are already ordered |
| ForestRuns.ShrinkLeaf | llvmbox-tools/llvmboxlib.c:1088-1091 | a tree of one element at the right is in place, and what is left stays ordered and below it |
| ForestRuns.ShrinkSplit | llvmbox-tools/llvmboxlib.c:1092-1101 | taking a root off and trinkling the two subtrees keeps the shrinking invariant: ordered forest, sorted suffix above it |
| Qsort.MergeState | llvmbox-tools/llvmboxlib.c:1061-1064 | the same on the bit set and the shift: one round of the first loop |
| Qsort.LastingState | llvmbox-tools/llvmboxlib.c:1066-1067 | one round of the first loop that trinkles |
| Qsort.PassingState | llvmbox-tools/llvmboxlib.c:1068-1070 | one round of the first loop that sifts |
| Qsort.PushState | llvmbox-tools/llvmboxlib.c:1072-1082 | the bit set after either stands for the forest with the new element |
| Qsort.GrownIsFlawedAtFirst | llvmbox-tools/llvmboxlib.c:1085 | the trinkle between the loops turns the grown forest into an ordered one |
| Qsort.LeafState | llvmbox-tools/llvmboxlib.c:1088-1091 | one round of the second loop that drops a leaf |
| Qsort.SplitState | llvmbox-tools/llvmboxlib.c:1092-1101 | one round of the second loop that splits a tree |
| Qsort.Qsort | llvmbox-tools/llvmboxlib.c:1044-1104 | for every total preorder the array ends sorted and a permutation of what it was; both loops end and every access is in range |
| Sha256.WindowWord | llvmbox-tools/llvmboxlib.c:743-749 | the sum written over one of the sixteen words is the word of the message schedule sixteen further on |
| Sha256.RoundStep | llvmbox-tools/llvmboxlib.c:750-778 | one pass of the inner loop is one round of section 6.2.2 of FIPS 180-4 |
| Sha256.ConsumeChunk | llvmbox-tools/llvmboxlib.c:731-783 | with sixteen words of schedule kept in a circle, the state becomes what the sixty-four word definition says, for every state and block |
| Sha256Constants.FirstPrimes | llvmbox-tools/llvmboxlib.c:753-765 | the table of primes the constants are measured by holds the first 64, in order |
| Sha256Constants.ConstantsAreRoots | llvmbox-tools/llvmboxlib.c:753-765 | constant t is the first 32 bits of the fraction of the cube root of prime t |
| Sha256Constants.InitialAreRoots | llvmbox-tools/llvmboxlib.c:790-797 | the variables start as the first 32 bits of the fractions of the square roots of the first eight primes |
| Sha256Example.DigestOfAbc | llvmbox-tools/llvmboxlib.c:731-858 | the definition gives "abc" its published digest, which fixes rotations, shifts, the order of bytes, and the padding |
| Sha256Stream.PaddedTail | llvmbox-tools/llvmboxlib.c:830-840 | the zeros written are those of section 5.1.1 of FIPS 180-4, in one block or two |
| Sha256Stream.LengthBits | llvmbox-tools/llvmboxlib.c:841-848 | the shifts that store the length write its number of bits, big-endian |
| Sha256Stream.CounterBits | llvmbox-tools/llvmboxlib.c:801 | a length counter that wraps at 2^64 bytes still gives the right length field, modulo 2^64 bits |
| Sha256Stream.Hasher.constructor | llvmbox-tools/llvmboxlib.c:785-798 | a new hasher has seen the empty message |
| Sha256Stream.Hasher.Write | llvmbox-tools/llvmboxlib.c:800-823 | the message seen grows by the data, whatever was buffered |
| Sha256Stream.Hasher.Close | llvmbox-tools/llvmboxlib.c:825-858 | the digest is that of the whole message |
| Sha256Stream.HashInPieces | llvmbox-tools/llvmboxlib.c:785-858 | every way of splitting a message over writes gives the digest of FIPS 180-4 |
| PathMeaning.DenoteRender | llvmbox-tools/llvmboxlib.c:42-102 | every proper meaning has a spelling that means it |
| PathMeaning.CleanIsCanonical | llvmbox-tools/llvmboxlib.c:42-102 | the clean form means what the path means, is itself clean, and two paths have the same one exactly if they mean the same |
| PathMeaning.JoinAfterClean | llvmbox-tools/llvmboxlib.c:105-112 | for a non-empty first path, cleaning it before joining changes nothing of what the result means |
| PathClean.PathCleann | llvmbox-tools/llvmboxlib.c:42-102 | in place and backtracking, the result is the clean form whenever what is returned is below PATH_MAX, which it is exactly if no more characters than that are copied, as for every path that is shorter; what is returned is the length of the result exactly if no name was taken back |
| PathDraft.CopiedIs | llvmbox-tools/llvmboxlib.c:48-96 | as many characters are copied as the clean form has, or more; exactly as many if and only if no ".." takes a name back |
| PathDraft.CopiedAtMost | llvmbox-tools/llvmboxlib.c:48-96 | no more characters are copied than the path has, or one for the empty path |
| PathDraft.TakenBack | llvmbox-tools/llvmboxlib.c:62-69 | for "a/.." two characters are copied and the result has one |
| PathClean.PathJoin | llvmbox-tools/llvmboxlib.c:105-112 | -1 exactly if PATH_MAX characters or more are copied for what is in the buffer and, if the parts are longer than it, behind it; else the clean form of that, which for parts that fit is the clean form of both joined, with the first cleaned or not |
| PathClean.JoinedWrongly | llvmbox-tools/llvmboxlib.c:105-112 | in a buffer of any size, "." and a name two characters shorter than it are joined to the name with an end mark in place of its last character |
| FtsMachine.StepFollowsTour | musl-fts/fts.c:344-541 | each read returns the next node of the tour still due, or the end exactly at its end, and keeps identities distinct along the open directories |
| FtsMachine.SkipDropsSubtree | musl-fts/fts.c:392-404 | skipping a directory just announced returns it again as done and drops exactly what was below it |
| FtsMachine.Run | musl-fts/fts.c:344-541 | reading to the end returns what is due in the state it starts from, and ends, cyclic graph or not |
| FtsMachine.RunIsTour | musl-fts/fts.c:128-541 | from the state after opening, all reads return the tour of each root in turn |
| FtsMachine.KidsOk | musl-fts/fts.c:977-1005 | no file found in a directory is taken for a directory if an ancestor has its identity |
| FtsTour.RunNests | musl-fts/fts.c:344-541 | over a whole run every directory announced is closed once, as done or unreadable, like brackets, and never while one with its identity is open |
| FtsTour.KidsComplete | musl-fts/fts.c:773-881 | a directory's files are its listed entries, one for one and in order, with their paths |
| FtsTour.ShortcutIsSound | musl-fts/fts.c:697-706 | counting links instead of looking misses no subdirectory exactly if the budget is unlimited or no smaller than their number |
| FtsTour.LinksAreRight | musl-fts/fts.c:697-706 | under the budget a directory gets, none of its directories is missed exactly if its link count is less than 2 or by 2 at least their number, or with "." and ".." listed at least their number |
| FtsTour.MissedUncounted | musl-fts/fts.c:697-706 | the only directory in one of two links is not looked at |
| FtsTour.NothingLeftOut | musl-fts/fts.c:344-541 | where link counts are right, every directory that can be reached from a root without meeting an identity again or leaving a device that is to be kept to is in the run |
| FtsTour.TourFound | musl-fts/fts.c:344-541 | all nodes of a tour but its first and the ends of directories are listed in a directory of it that could be entered; "." and ".." only if asked for |
| FtsTour.NothingElse | musl-fts/fts.c:344-541 | so a run returns no files but the roots and those |
| FtsTour.EndIs | musl-fts/fts.c:392-441 | a directory's tour starts with it and ends with it as unreadable, if it was tried and could not be read, or as done |
| FtsTour.ChildPathIs | musl-fts/fts.c:326-328 | a child's path is its directory's and its name, with a separator between them unless the directory's ends in one |
| FtsSeen.SeenAsIs | musl-fts/fts.c:783-865 | if no entry is looked at through a moved buffer, the directory is seen as it is |
| FtsSeen.AstrayIs | musl-fts/fts.c:785-865 | that needs a path that does not fit, and without the link-count shortcut it is enough |
| FtsStray.WrongDiffers | musl-fts/fts.c:783-865 | if some entry is looked at where it is not, a report there makes the files found other ones |
| FtsStray.ReadRight | musl-fts/fts.c:783-865 | a step is the right one whatever is reported exactly if no entry is looked at where it is not |
| FtsStray.WalkRight | musl-fts/fts.c:344-541 | a walk returns the tours of its roots whatever its reads see elsewhere exactly if none goes astray in the file system as it is |
| FtsStray.WalkShort | musl-fts/fts.c:783-865 | where every entry is looked at, one does exactly if the path of some file in the tours does not fit in the first buffer |
| FtsStray.KidsFit | musl-fts/fts.c:785-810 | if every path still due fits in the buffer, so do those of the directory about to be read |
| FtsStray.StepFits | musl-fts/fts.c:785-832 | a read of entries whose paths fit leaves the buffer's length and only files that fit |
| FtsSeen.StepShrinks | musl-fts/fts.c:344-541 | every step leaves fewer steps to come, counted from the directories not yet open and the most entries one has |
| Fts.ChainIs | musl-fts/fts.c:998-1003 | the identities on the way up are those of the open directories |
| Fts.CopyName | musl-fts/fts.c:859-860 | a name and its end mark replace as many characters of the buffer, and no others |
| Fts.WriteChild | musl-fts/fts.c:492-494 | a child's name written behind its directory's path shows the child's path and leaves the directory's in place |
| Fts.Append | musl-fts/fts.c:873-879 | a node goes at the end of a list of siblings, in constant work |
| Fts.Stream.Cycles | musl-fts/fts.c:998-1003 | the search upwards finds the identity exactly if an open directory has it |
| Fts.Stream.Stat | musl-fts/fts.c:930-1011 | kind, identity and links of a file from what the system reports, with what the search upwards finds |
| Fts.Stream.Palloc | musl-fts/fts.c:1153-1174 | a larger buffer, of the next power of two, that starts with what the old one held |
| Fts.Stream.Padjust | musl-fts/fts.c:1180-1206 | walking along links and then parents, every live node's pointer is made to follow the buffer |
| Fts.Stream.AllocKid | musl-fts/fts.c:783-832 | the file for an entry, with the buffer grown exactly if the entry's path does not fit |
| Fts.Stream.LookAt | musl-fts/fts.c:839-870 | looked at or not as type and link count allow, where it is or, through a moved buffer, elsewhere |
| Fts.Stream.ReadEntries | musl-fts/fts.c:773-881 | the loop over the entries builds the list the machine makes of the directory as it is seen; the buffer moves exactly if a path does not fit |
| Fts.Stream.Slash | musl-fts/fts.c:751-757 | a separator goes behind the directory's path |
| Fts.Stream.PutBack | musl-fts/fts.c:895-899 | with files found the directory's path stays in the buffer; with none it is shown without a trailing separator |
| Fts.Stream.ReadDir | musl-fts/fts.c:751-928 | the list below the current directory as it is seen, with every pointer and the buffer put right |
| Fts.Stream.GoIn | musl-fts/fts.c:433-441 | into a directory that can be read, as it is seen: to its first file, or back as done if it has none |
| Fts.Stream.Descend | musl-fts/fts.c:392-441 | what a read does at a directory just announced |
| Fts.LastPartIs | musl-fts/fts.c:262-266 | what is kept of a root's name is the end of it behind a separator, and has none in it unless it is "/" |
| Fts.Stream.Load | musl-fts/fts.c:244-270 | another root's path is in the buffer and its device is the current one |
| Fts.Stream.CutName | musl-fts/fts.c:262-266 | of its name only the part behind the last separator is kept, unless that is all there is |
| Fts.Stream.GoNext | musl-fts/fts.c:456-496 | to the next sibling, or to the next root, whose name is cut |
| Fts.Stream.GoUp | musl-fts/fts.c:498-541 | back to the directory above, as done, or to the end |
| Fts.Stream.Read | musl-fts/fts.c:344-541 | one read on linked nodes is one step of the machine in the file system as it is seen; the buffer shows the path of the file returned, clipped in one case, and moves exactly if the directory entered has a path too long for it, to the length that all of them make it |
| Fts.Stream.MisledIs | musl-fts/fts.c:783-865 | a read sees the file system as it is unless it looks at an entry through a moved buffer, which without the link-count shortcut is exactly if some path is too long |
| Fts.Stream.RightUnlessMisled | musl-fts/fts.c:783-865 | a read is the machine's step in the file system as it is, whatever a look through a moved buffer reports, exactly if it is not misled |
| Fts.Stream.AbovePrefixes | musl-fts/fts.c:492-495 | the path of every open directory is a prefix of the paths of all files below it |
| Fts.Stream.ClipShows | musl-fts/fts.c:895-899 | the clipped buffer still shows the path exactly if that does not end in a separator |
| Fts.Stream.KidNotClipped | musl-fts/fts.c:895-899 | the path of a file found in a directory is never clipped |
| Fts.Open | musl-fts/fts.c:127-242 | null exactly if an argument is empty; otherwise, if there are any, the machine's starting state, in a buffer of the next power of two |
| FtsWalk.Walk | musl-fts/fts.c:127-541 | opening and reading to the end comes to an end whatever is seen, cycles or not, and returns what the machine does as each read sees the file system; that is the tours of the roots if no read was misled, and some read is exactly if one goes astray in the file system as it is, which where every entry is looked at is exactly if some path does not fit in the first buffer |
| FtsWalk.Misreads | musl-fts/fts.c:783-865 | an entry of a root at a path too long for the buffer, where a look finds nothing, is returned as a regular file |
| FtsPow2.Spread | musl-fts/fts.c:1131-1142 | a shift and an or double the number of ones at the top |
| FtsPow2.Pow2 | musl-fts/fts.c:1127-1145 | the steps give two to the number of digits of one less |
| FtsPow2.Pow2IsNext | musl-fts/fts.c:1127-1145 | that is the smallest power of two that is not less |
| FtsPow2.Pow2IsRoundUp | musl-fts/fts.c:1127-1145 | and the size that doubling gives, which the buffer uses |
| Rounding.RoundedIsNearest | sysroots/compiler-rt/builtins/floattidf.c:25-71 | keeping p digits and rounding up by the digits lost is rounding to the nearest of all numbers with p digits, ties to even |
| Rounding.NearestIsRounded | sysroots/compiler-rt/builtins/floattidf.c:25-71 | nothing else is |
| IntToFloat.OverflowIs | sysroots/compiler-rt/builtins/floatuntisf.c:24-66 | the rounded exponent leaves the format exactly from the threshold of section 4.3.1 of IEEE 754-2019 on, and then the fraction is zero |
| IntToFloat.EncodedFields | sysroots/compiler-rt/builtins/floattidf.c:65-70 | sign, exponent and fraction can be read back from the encoding |
| IntToFloat.EncodedConverts | sysroots/compiler-rt/builtins/floattidf.c:25-71 | the encoded rounding is the conversion |
| IntToFloat.JamMany | sysroots/compiler-rt/builtins/floattidf.c:47-49 | shifting with a sticky bit keeps what rounding needs: the digits, the half, and whether anything is below |
| IntToFloat.RoundJammed | sysroots/compiler-rt/builtins/floattidf.c:51-54 | or-ing P into R, adding one and dropping two bits rounds to nearest, ties to even |
| IntToFloat.RoundOff | sysroots/compiler-rt/builtins/floattidf.c:33-64 | digits and exponent after rounding in an n-bit word, for every n and p |
| IntToFloat.Pack | sysroots/compiler-rt/builtins/floattidf.c:65-70 | or-ed fields in a high and a low word are the encoding |
| IntToFloat.FromSigned | sysroots/compiler-rt/builtins/floattidf.c:25-71 | every signed n-bit integer converts correctly |
| IntToFloat.FromUnsigned | sysroots/compiler-rt/builtins/floatuntisf.c:24-66 | every unsigned n-bit integer converts correctly, to infinity where it must |
| IntToFloat.OutAtTop | sysroots/compiler-rt/builtins/floatsisf.c:44-50 | the bits shifted out, moved to the top of the word, compare with the sign bit as with half a unit |
| IntToFloat.RoundedBits | sysroots/compiler-rt/builtins/floatsisf.c:39-54 | rounding in the shifted fraction and letting the carry run into the exponent gives the same encoding |
| IntToFloat.FromWord | sysroots/compiler-rt/builtins/floatsisf.c:20-57 | so this way of rounding converts correctly too |
| IntToFloat.ConvertsOnce | sysroots/compiler-rt/builtins/floatsisf.c:20-57 | only one pattern of bits is the conversion of an integer, so all ways agree |
| FloatBits.SaysWhatConverts32 | sysroots/compiler-rt/builtins/floattisf.c:24-69 | the conversions to binary32 put the sign in bit 31, the exponent biased by 127 below it, and 23 of 24 digits below that; from 2^128 - 2^103 on it is infinity |
| FloatBits.SaysWhatConverts64 | sysroots/compiler-rt/builtins/floattidf.c:65-70 | those to binary64: bit 63, 11 bits biased by 1023, and 52 of 53 digits |
| FloatBits.SaysWhatConverts128 | sysroots/compiler-rt/builtins/floattitf.c:29-76 | those to binary128: bit 127, 15 bits biased by 16383, and 112 of 113 digits |
| FloatBits.OverflowAt | sysroots/compiler-rt/builtins/floatuntisf.c:24-66 | only binary32 can overflow, from 2^128 - 2^103 on |
| FloatBits.OneIs | sysroots/compiler-rt/builtins/floattidf.c:25-71 | the bits of 1 in the three formats |
| FloatBits.LargestIs | sysroots/compiler-rt/builtins/floattidf.c:25-71 | the bits of the largest finite number in each |
| FloatBits.FloatTiDf | sysroots/compiler-rt/builtins/floattidf.c:25-71 | signed 128-bit to binary64 |
| FloatBits.FloatTiSf | sysroots/compiler-rt/builtins/floattisf.c:24-69 | signed 128-bit to binary32 |
| FloatBits.FloatTiTf | sysroots/compiler-rt/builtins/floattitf.c:29-76 | signed 128-bit to binary128 |
| FloatBits.FloatUnTiDf | sysroots/compiler-rt/builtins/floatuntidf.c:25-68 | unsigned 128-bit to binary64 |
| FloatBits.FloatUnTiSf | sysroots/compiler-rt/builtins/floatuntisf.c:24-66 | unsigned 128-bit to binary32, infinity from 2^128 - 2^103 on |
| FloatBits.FloatUnTiTf | sysroots/compiler-rt/builtins/floatuntitf.c:29-73 | unsigned 128-bit to binary128 |
| FloatBits.FloatDiSf | sysroots/compiler-rt/builtins/floatdisf.c:22-67 | signed 64-bit to binary32 |
| FloatBits.FloatUnDiSf | sysroots/compiler-rt/builtins/floatundisf.c:22-64 | unsigned 64-bit to binary32 |
| FloatBits.FloatDiDf | sysroots/compiler-rt/builtins/floatdidf.c:48-94 | signed 64-bit to binary64, soft-float branch |
| FloatBits.FloatUnDiDf | sysroots/compiler-rt/builtins/floatundidf.c:54-97 | unsigned 64-bit to binary64, soft-float branch |
| FloatBits.FloatSiSf | sysroots/compiler-rt/builtins/floatsisf.c:20-57 | signed 32-bit to binary32 |
| FloatBits.FloatUnSiSf | sysroots/compiler-rt/builtins/floatunsisf.c:20-49 | unsigned 32-bit to binary32 |
| WideMultiply.WideMultiply64 | sysroots/compiler-rt/builtins/fp_lib.h:89-101 | hi * 2^64 + lo is the product |
| WideMultiply.Distribute4 | sysroots/compiler-rt/builtins/fp_lib.h:160-185 | the sixteen products of parts, added by weight, are the product |
| WideMultiply.WideMultiply128 | sysroots/compiler-rt/builtins/fp_lib.h:158-195 | hi * 2^128 + lo is the product, less 2^128 exactly if the addition that makes lo carries |
| WideMultiply.CarryLost | sysroots/compiler-rt/builtins/fp_lib.h:187-194 | for these two operands it does |
| WideShift.WideRightShiftWithSticky | sysroots/compiler-rt/builtins/fp_lib.h:252-267 | wherever the C shifts are defined, the double word is shifted right with its lowest bit set if any bit was lost |
| WideShift.JamJam | sysroots/compiler-rt/builtins/fp_lib.h:252-267 | two such shifts are one by the sum of the counts |
| WideShift.WideLeftShift | sysroots/compiler-rt/builtins/fp_lib.h:247-250 | the double word is shifted left, without what leaves it |
| WideShift.Normalize | sysroots/compiler-rt/builtins/fp_lib.h:241-245 | the top bit is where it should be, and the exponent returned accounts for the shift |
| Base64.ToBase64 | experiments/xar/src/xar.c:389-443 | the encoding and its end mark, of which the buffer holds as much as there is room for; the count includes the mark, and is more than the buffer exactly under the condition on the length, for every length |
| Base64Size.ThirdIsNearest | experiments/xar/src/xar.c:396 | the division is rounded to the nearest float, ties to even |
| Base64Bands.ClosedForm | experiments/xar/src/xar.c:396 | from 3 * 2^22 bytes on the size is three roundings of integers to multiples of powers of two |
| Base64Bands.SizeSuffices | experiments/xar/src/xar.c:396 | the size is enough exactly for lengths below that and those with a residue it is enough for, but for two; below 3 * 2^23 it is never short by more than one |
| Base64Bands.SizeInBands | experiments/xar/src/xar.c:396 | below 2^27 bytes those are given by the residues that are too long, and from there on by intervals of them |
| Base64Bands.LeastTooLong | experiments/xar/src/xar.c:396 | the least length the size is not enough for is 16777225 |
| Base64.LetterIs | experiments/xar/src/xar.c:382-387 | the encoder's letters are the 64 characters of RFC 4648, in order |
| Base64.MeaningIs | experiments/xar/lib/b64.c:54-71 | every byte means its place among those, or "=" padding, or 0 the end, or nothing |
| Base64.EncodeReads | experiments/xar/src/xar.c:389-443 | the letters of a group, as digits in base 64, are its bytes as digits in base 256, filled up with zero bits |
| Base64.EncodedLength | experiments/xar/src/xar.c:389-443 | four characters for every three bytes or part of three |
| Base64.RawBase64Decode | experiments/xar/lib/b64.c:73-141 | error or the decoded bytes, as the decoding of the characters one by one says; fewer than 3 * (len / 4 + 1) bytes are written on every input |
| Base64.DecodesExactly | experiments/xar/lib/b64.c:73-141 | input decodes exactly if whole groups of letters come before its end, or a padding character with one letter missing, or two of them with two missing; then to one byte for every eight bits |
| Base64.BehindMatters | experiments/xar/lib/b64.c:89-98 | if the input ends in the first of two padding characters it decodes exactly if the byte behind it is the second; if not, the byte makes no difference |
| Base64.DecodesAlone | experiments/xar/lib/b64.c:89-98 | so the byte makes no difference exactly then |
| Base64.BehindWitness | experiments/xar/lib/b64.c:93-98 | "AA=" is a byte 0 before another padding character and undecodable before anything else |
| Base64.FromBase64 | experiments/xar/lib/b64.c:143-160 | null exactly on error |
| Base64.RoundTrip | experiments/xar/lib/b64.c:73-160 | decoding the encoding of any bytes gives them back, whatever follows in memory |
| Base64.IgnoredAnywhere | experiments/xar/lib/b64.c:93-106 | a character without meaning changes nothing exactly if it is not put between two padding characters that belong together |
| Base64.NotBetweenPadding | experiments/xar/lib/b64.c:93-98 | put between them, wherever they stand, it makes what decoded undecodable |
| XarHeap.Archive.constructor | experiments/xar/lib/archive.c:270-274 | a new archive has room for a digest of 20 bytes |
| XarHeap.Archive.AddSignature | experiments/xar/lib/signature.c:57-112 | room behind all that is reserved, refused once there are files |
| XarHeap.Archive.SetTocChecksum | experiments/xar/lib/archive.c:862-893 | the signatures are laid out anew behind the new digest, refused once there are files |
| XarHeap.Archive.CopyIn | experiments/xar/lib/io.c:243-285 | until nothing is read and nothing put out, the filtered bytes are in the heap file from the position on, and all counters are what was read and written |
| XarHeap.FlushedAtEnd | experiments/xar/lib/io.c:244-284 | a filter that puts out its last bytes after the end of the input takes one more round of the loop |
| XarHeap.Archive.AddFile | experiments/xar/lib/io.c:226-397 | what is recorded of the file, whose bytes it has, how much longer the heap is; every file that has data still finds its bytes, offset and length of the heap agree, and ranges are equal or disjoint |
| XarHeap.Added | experiments/xar/lib/io.c:304 | bytes put at the end leave everyone's bytes in place, and share none |
| XarHeap.Shared | experiments/xar/lib/io.c:339-361 | a coalesced file finds its bytes where the first one's are |
| XarHeap.Archive.CopyHeap | experiments/xar/lib/archive.c:751-777 | of the heap file as much is copied as the recorded length leaves room for behind what has been written |
| XarHeap.Archive.Close | experiments/xar/lib/archive.c:684-777 | with a digest: digest, signatures and live heap; without: the live heap and, behind it, as many of the bytes given up as the signatures would take |
| XarHeap.Archive.ReadsBack | experiments/xar/lib/io.c:404-508 | with digest and signatures written, the bytes at a file's offset are its archived bytes |
| XarHeap.Archive.ReadsBackLower | experiments/xar/lib/archive.c:703-704 | without a digest they are that much lower as was reserved |
| XarHeap.Archive.SignaturesRight | experiments/xar/lib/archive.c:684-777 | with a digest, that is at the start of the output and each signature at its offset |
| XarHeap.Archive.OffsetsRight | experiments/xar/lib/archive.c:704-777 | a file is read back from its recorded offset if there is a digest or no signature bytes, and the file at the end of a heap that was not rewound exactly then |
| XarHeap.LostWithoutDigest | experiments/xar/lib/archive.c:704-777 | an archive built with a signature of any length and no digest does not give its first file back |
| XarHeap.FromHeap | experiments/xar/lib/io.c:432-496 | reading in buffers gives the bytes at the offset, or as many as there are |
| XarTree.Iterator.Start | experiments/xar/lib/filetree.c:827-831 | at the first node, all others still due, whatever the keys |
| XarTree.Iterator.Advance | experiments/xar/lib/filetree.c:350-407 | the next node in pre-order, or null at the end, or a look into a null path if that is used up; the joined name if no key is empty or has a separator |
| XarTree.EachOnce | experiments/xar/lib/filetree.c:350-407 | nodes linked by parent, first child and next sibling cannot be reached in two ways, so pre-order has none twice |
| XarTree.VisitAll | experiments/xar/lib/filetree.c:827-892 | all nodes of the forest, none twice, in pre-order, unless the path is used up, which it is exactly if the counts of its parts say so; never if each key has a character that is not a separator; names joined if no key is empty or has a separator |
| XarTree.DirNameKeeps | experiments/xar/lib/filetree.c:377-379 | `dirname` takes one component away at most, and leaves a rooted path rooted |
| XarTree.CountedIs | experiments/xar/lib/filetree.c:352-390 | the path is used up exactly if the counts say so, and whether it starts at the root, how many parts it has and whether there is a separator in it are what the counts say |
| XarTree.PathLasts | experiments/xar/lib/filetree.c:352-390 | if each key has a character that is not a separator, the path is never used up |
| XarTree.PathLost | experiments/xar/lib/filetree.c:372-390 | below "a" and two empty keys it is |
| XarTree.Find | experiments/xar/lib/filetree.c:459-481 | what is found has the name searched for; under unique keys that are not empty and have no separator, null is returned exactly if no node has it |
| XarTree.CutJoin | experiments/xar/lib/filetree.c:464-465 | taking the first key off a joined name gives the first key and the rest joined |
| XarTree.NameLeadsBack | experiments/xar/lib/filetree.c:350-481 | the name the iterator gives a node finds that node, if siblings' keys are unique and without separators |
| XarTree.FirstOfTwo | experiments/xar/lib/filetree.c:459-481 | with two like-named siblings it finds the first |
| XarCopy.LinkLast | experiments/xar/lib/filetree.c:757-764 | a node goes behind the last of its siblings |
| XarCopy.FileList.AddChild | experiments/xar/lib/filetree.c:741-767 | a new file is last below its parent, and no other list changes |
| XarCopy.FileList.AddRoot | experiments/xar/lib/archive.c:1377-1388 | a new root is first, and no other list changes |
| XarCopy.OnStack | experiments/xar/src/xar.c:833-875 | the last file's ancestors are right below it on the stack |
| XarCopy.SiblingOnStack | experiments/xar/src/xar.c:860-865 | the search for a sibling does not run the stack empty |
| XarCopy.FindParent | experiments/xar/src/xar.c:860-869 | popping both stacks ends with the file's parent on top |
| XarCopy.CopyOne | experiments/xar/src/xar.c:843-874 | one file more is copied to where it belongs, and the stacks again hold its ancestors |
| XarCopy.CopyFiles | experiments/xar/src/xar.c:818-875 | all files are copied, whatever their names, as long as the iterator does not use up its path: same keys, below each copy the copies of the children in order, the roots in reverse |
| XarCopy.SameTree | experiments/xar/src/xar.c:818-875 | so the new tree has the old one's shape, node by node |

## Left out

- Qsort.Qsort: the bit set is one number, where the source has two words of it; they differ only for arrays of more elements than memory can hold, where `pntz` would take the trailing zeros of 0. Elements are array elements, not `width` bytes, so scaling by the width and the moving in pieces of 256 bytes are not modelled.
- Sha256Stream.Hasher.Close: the digest is that of FIPS 180-4 for messages below 2^61 bytes; for longer ones the length field is taken modulo 2^64 bits, as the source's is.
- PathClean.PathJoin: what lies behind the buffer is a parameter.
- Fts.Stream.Palloc: a reallocated buffer is always a new one; if it stays in place no pointer is stale, and a walk returns what it does here when each entry is reported as it is. Failing to allocate is not modelled.
- Fts.Stream.Load: the name is cut once the root is current (`CutName`).
- Fts.Stream.Read: a stream opened without arguments is not read: its only file has a parent that is not set.
- FtsSeen.RoundUp: doubles until large enough; the bit operations are in FtsPow2.
- Fts: the walk of `FTS_NOCHDIR` only, without a comparison function, `fts_children`, `fts_set` other than skipping the current node, whiteouts, errors of `readdir`, and `fts_close`. What stat calls and directory reads report is a finite map that does not change during a walk.
- IntToFloat.FromSigned: the absolute value of the least integer is taken as its magnitude, which is what the wrapped result reads as. Leading zeros are counted by a function. The branches that use hardware floats are not modelled.
- WideShift.Normalize: leading zeros are counted by a function.
- Base64.ToBase64: the size is a natural number, where the source converts it to `int`, which holds it below 2^31. Stores past the end are left out, and undefined in the source.
- Base64.RawBase64Decode: `char` is signed, as the table needs.
- XarHeap.Archive.AddFile: one `data` property per file, whose filters are given by what they put out; options are arguments of each call; equal checksums mean equal bytes. Extended attributes, copying from another archive's heap, and failing system calls are not modelled.
- XarHeap.Archive.Close: the header and the table of contents before the heap are not modelled, and writes are complete.
- XarTree.Iterator.Advance: names are stated only for keys that are not empty and have no separator in them; a file has a name.
- XarTree.Find: `xar_file_find` is like it, but does not move on from a file without a name; such files are not modelled.
- XarTree: `xar_prop_set_r` and the other functions that change properties; attributes; serialization.
- XarCopy.CopyFiles: the stacks are sequences, properties and heap data are not copied, and there is at least one file, without which the source would follow a null pointer.
- The rest of the repository: build scripts, compiler drivers, `dedup_tfiles`, the Mach-O reader, `pbzx`, memory and array helpers, soft-float arithmetic, and command-line parsing.
