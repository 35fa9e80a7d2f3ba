# fsview: layout and index structures, proved

fsview lays a source file tree onto a virtual disk without copying it: it charts the extents of the
files on their media, appends ranges of those media to a target, and generates the metadata of a file
system (HFS+, FAT32 or ISO 9660) that must agree with that layout byte for byte. This project models
the part that has to be right for a host to find its files, and proves that a host does find them:
the readers a host would use are written down as functions of the finished bytes, and the main lemmas
equate what they return with what went in.

- **HFS+ B-trees** (`HfsNode`, `HfsSearch`, `HfsTree`, `HfsImage`, `HfsKeys`, on `Lexical`, `Bytes`).
  Nodes that grow record by record, greedy packing of a sorted map level by level, map nodes, and the
  bytes of the file. A host that reads the node size, the root and the depth from the header and
  searches downwards arrives at the greatest key of the map not above the wanted one, and so gets the
  value of every key of the map, and nothing for any other key.
- **HFS+ forks** (`HfsFork`, `HfsOverflow`). Extents packed into the catalog record and overflow records
  of eight, and looked up by a host in the bytes of the overflow file. Reading a block through them is
  walking the extent list exactly when the joined extents fit the catalog record, or no extent that
  meets a full record is contiguous with the one before it; for the rest the loop loses blocks, and a
  run of ten extents shows it. On a volume laid over a CD (`HfsSlave`) the extents are recorded exactly
  only when the file area and all padded ranges are whole HFS+ blocks.
- **HFS+ allocation bitmap** (`HfsBitmap`). The guess for the block count, which counts the bitmap
  sized by it, is exact and the least possible on a block boundary, and never sizes the bitmap too
  small anywhere else; the alternate header ends up 1024 bytes before the end.
- **Address translation** (`Territory`, `Device`, `Volume`, `Words`, `Blocks`, `Burner`,
  `Layout`, `Translation`, `Options`). Charting, merging across gaps, the choice of the block size,
  planning and burning. Every translated address holds the bytes of its extent, aligned, and no two
  source bytes share one.
- **FAT32** (`FatTable`, `FatChains`, `RuleMedium`, `FatVolume`, `FatImage`). A generated "points to
  the next" table overlaid with amendments. Following it from a file's first cluster visits the clusters of its
  extents in order and ends, exactly when wherever several extents end on one cluster the one entered
  last has the file's own successor there; so it does for files of one extent and for hard links, and
  does not for a file that shares its extents with a longer one. Sparse and dense tables agree on files.
  A volume is made as a whole, and by every copy of the table in its image a host gets the files.
- **ISO 9660** (`CdDirectory`, `CdTree`, `CdAssembly`, `CdPathTable`, `Folders`, `Unique`). Directory
  records packed into sectors, files of several extents, directories written from the leaves up with
  stored fixups, which a host walks from the root to every folder, the path table numbered by
  inserting into the map that is being walked, and the name order.
- **Reading files back** (`Reading`, `FileReading`). From the burnt image, by cluster chain, by fork
  blocks or by directory records, a host gets the bytes the file's extents had on their source media.

Where the source updates an object in place, the model is a class with those fields; each method is
tied by its contract to a function of the old state, and the lemmas are about that function. Media are
functions from an identity and an offset to a byte, `std::map` is a Dafny map or a sorted sequence of
bindings, and a `Later::Store` is a pending value that is written when its extent is known.

The files can be checked together with `dafny verify dfyconfig.toml`.

## Model

| member | source | states |
|---|---|---|
| HfsImage.HostFinds | impl/hfplus.h:1069-1142 | searching the bytes of a finished B-tree file the way a host does (node size, root and depth from the header record, then the last key not above the wanted one at each level) arrives at the record with the greatest key not above the wanted one, if there is any; an exact search yields the value of every key of the map and nothing for any other key; and the file tells of itself what `FileTells` says |
| HfsImage.BuildFile | impl/hfplus.h:1069-1142 | from the sorted map to the bytes and back: builds the tree, writes it, and every search of what was written, exact or for the greatest key not above, answers as the map does; a scan from the first leaf to the last yields all records in order, and their number, the node count and all other fields of the header record are what a host expects; it aborts exactly when output or node size is off a sector |
| HfsImage.FileTells | impl/hfplus.h:596-618 | read from the bytes alone: the scan along the leaf links from `firstLeafNode` to `lastLeafNode` yields exactly the records of the map, `leafRecords` is their number, `totalNodes` that of the nodes, which fill the file; the map records collected along the links are the bitmap from its first bit on with a bit for every node; the key limit admits catalog names of exactly up to 255 characters and equals the size of extent keys; every node has the kind and the links of its place, and what is reserved is blank |
| HfsTree.TreeBuilder.CompactBTree | impl/hfplus.h:1069-1135 | builds a tree that is sound for its map: searches from `rootNode` through `treeDepth` levels look the map up, every node of the tree fits, leaves are one linked run from `firstLeafNode` to `lastLeafNode` that scans to the whole map in order, the depth is logarithmic in the leaves, and header and map nodes tile a bitmap with a bit for each of `totalNodes` |
| HfsTree.TreeBuilder.CompactLevel | impl/hfplus.h:1034-1066 | appends to the node list exactly the greedy packing of the records and returns the first key and number of every node, which is what `PackIsLevel` speaks about |
| HfsTree.TreeBuilder.AddMapNodes | impl/hfplus.h:1115-1134 | terminates though every map node adds to the count being described; the map records tile the bitmap without gaps, there is a bit for every node and there would not be without the last map node, and the tree below is left alone |
| HfsTree.TreeBuilder.WriteTo | impl/hfplus.h:1137-1142 | emits the nodes one after another with the header record as it is then, field by field as `HfsImage.FileTells` reads them back, and aborts exactly when output or node size is off a sector |
| HfsTree.PackIsLevel | impl/hfplus.h:1034-1066 | greedy packing keeps all records in order, overfills no node, closes a node only when the next record does not fit, links consecutive node numbers both ways, and the index holds the first key and the number of each node |
| HfsTree.IndexPass | impl/hfplus.h:1084-1092 | an index level on top of a sound tree is again sound and has strictly fewer nodes; the count times its power of two stays below the leaf count, so the depth is logarithmic |
| HfsTree.RootPass | impl/hfplus.h:1084-1097 | when one index record is left, the last node is the root of a tree that answers every search as the map does |
| HfsTree.TreeStable | impl/hfplus.h:1115-1134 | adding map nodes and changing the header node changes no search, link or scan of the tree |
| HfsTree.MappingStep | impl/hfplus.h:1117-1131 | one more map node keeps the bitmap tiled and the chain of header and map nodes linked |
| HfsSearch.LevelShrinks | impl/hfplus.h:1084-1092 | when any two index records fit a node together, an index level has at most half as many nodes, rounded up, as the level below |
| HfsSearch.IndexSearch | impl/hfplus.h:1034-1066 | a search by way of a new index level finds what a search from the level below finds |
| HfsSearch.RankInNodes | impl/hfplus.h:1034-1066 | the last node whose first key is not above the wanted key holds the last record whose key is not above it |
| HfsImage.NodeRoundTrip | impl/hfplus.cpp:67-78 | reading the descriptor and the offsets backwards from the end of a written node slices out exactly the records put in, in order |
| HfsImage.NodeRest | impl/hfplus.cpp:67-78 | the reserved bytes of a descriptor and all bytes between the records and the offsets are zero |
| HfsImage.FileParses | impl/hfplus.h:1137-1142 | every leaf and index node a host parses from the file is the node that was written, records and all |
| HfsImage.FileHeads | impl/hfplus.h:1137-1142 | of every node of the file, header and map nodes too, the kind, height, links and record count are read back |
| HfsImage.KeyRoundTrip | impl/hfplus.h:1006-1010 | keys read back as written, and the key length field gives their size |
| HfsNode.NodeSpec.FitsExactly | impl/hfplus.cpp:34-38 | `fitsIn` holds exactly when the node with the record added still fits the capacity, and the free space is what is then left |
| HfsNode.NodeSpec.AddRecord | impl/hfplus.cpp:40-44 | adds a record and moves the free-space offset by its size; a well-formed node becomes one whose last record is not yet marked |
| HfsNode.NodeSpec.MarkRecord | impl/hfplus.cpp:46-50 | puts the new offset in front; after a record was added to a well-formed node this makes it well formed again |
| HfsNode.NodeSpec.WriteTo | impl/hfplus.cpp:67-78 | emits exactly the capacity: descriptor, records, zeros and the offset table, and aborts exactly when either end is off a sector |
| HfsKeys.CatalogOrder | impl/hfplus.h:732-735 | the order of named records is the lexicographic order of parent number followed by name |
| HfsKeys.ExtentOrder | impl/hfplus.cpp:129-137 | the order of extent keys is the lexicographic order of file, fork and start block |
| HfsFork.BlockMap | impl/hfplus.cpp:339-371 | for every list of nonempty extents, listed twice or not: when the joined extents number at most eight, or no extent that meets a full record continues the one before it, every file block read through the catalog record and the overflow record with the greatest key not above it is the block the extent list gives; and for extents that share no block, only then |
| HfsFork.PackFork | impl/hfplus.cpp:339-371 | the loop produces the records and the block count that `NothingLost`, `PackedBlocks`, `BlockMap`, `CleanPacks` and `OverflowKeys` speak about |
| HfsFork.NothingLost | impl/hfplus.cpp:339-371 | for every run of nonempty extents, well packed or not: the catalog record and the overflow records in the order of their keys hold the joined extents and nothing else, and each overflow record bears the number of the blocks before the extent that met the full record, whether that extent went into it or not |
| HfsFork.BlankBehind | impl/hfplus.cpp:339-371 | in every record the slots behind the used ones are blank |
| HfsFork.PackedBlocks | impl/hfplus.cpp:366-371 | the block count is the sum over all extents |
| HfsFork.CleanPacks | impl/hfplus.cpp:339-371 | on runs without such an extent the records are the joined extents, eight at a time |
| HfsFork.OverflowKeys | impl/hfplus.cpp:200-209 | each overflow record holds its eight joined extents under a key that is the sum of all block counts before them |
| HfsFork.CoalescedWalk | impl/hfplus.cpp:360-363 | joining contiguous extents never changes which target block a file block maps to, nor the total |
| HfsFork.MisreadStays | impl/hfplus.cpp:345-371 | once a block is looked up in the wrong record, no later extent can correct it |
| HfsFork.PackingLosesBlocks | impl/hfplus.cpp:345-363 | anywhere on the target, a list of ten extents that the loop packs so that a block is read wrongly |
| HfsOverflow.HostReadsFork | impl/hfplus.cpp:339-371 | in the bytes of the finished extents overflow file, shared by all files, the block a host finds for every file block (in the catalog record, else in the record of this file that a search for file, fork and block arrives at) is the one the extent list gives, under the condition of `HfsFork.BlockMap`, and for extents that share no block only then |
| HfsSlave.SlaveExact | impl/hfplus.cpp:350-354 | on an HFS+ volume laid over another one, the block number recorded for every extent times the block size is its address on the target, if and only if the file area begins on an HFS+ block and every range but the last, padded to the block of the volume below, takes whole HFS+ blocks |
| HfsSlave.CdAreaMisses | impl/cd9660.cpp:94-100 | over a CD whose file area begins behind 16 sectors and three descriptors, some extent is recorded too early, as 4096-byte blocks round its address down |
| HfsBitmap.Complete | impl/hfplus.cpp:393-429 | for block sizes of both planners that divide the volume's, the target aligned to the volume's blocks or not (as when the volume is laid over one with smaller blocks): the volume ends after the settled number of whole blocks; the bitmap has been listed on the way, from its first bit on, in whole blocks with a bit for each block of the volume, on the temporary medium and from there on the target; padding follows and what is left of the last block (all of it from a block boundary on), which ends in the alternate header; it aborts exactly when less than 1024 bytes of that block are left, never with planner blocks of 1024 bytes |
| HfsBitmap.CountSettles | impl/hfplus.cpp:393-417 | the bitmap is never too small, wherever the file area ends and whatever padding follows: the settled count is the one whose last block begins within or right behind what was written, the bitmap sized by the guess has a bit for each, and on a block boundary the count is the guess |
| HfsBitmap.EstimateExact | impl/hfplus.cpp:393-417 | the guess equals the blocks before the bitmap, plus the blocks of a bitmap with as many bits as the guess, plus one |
| HfsBitmap.EstimateLeast | impl/hfplus.cpp:393 | no smaller count leaves room for those blocks, its own bitmap and one more |
| HfsBitmap.AlternateHeader | impl/hfplus.cpp:423-429 | in the bytes of the written volume the header stands 1024 bytes before the end |
| HfsBitmap.BitmapBlocksIs | impl/hfplus.cpp:396 | the rounded bitmap has exactly the number of blocks whose bits suffice while one block fewer would not |
| Territory.MergeExtents | impl/device.cpp:224-238 | the in-place loop leaves exactly the merged chart |
| Territory.SharedRange | impl/device.cpp:224-238 | two entries end up in one range exactly when every gap between them is at most the tolerance |
| Territory.MergedIs | impl/device.cpp:224-238 | merged ranges are ascending and further apart than the tolerance, begin where entries begin, and every entry lies in one |
| Territory.MergedAgain | impl/device.cpp:224-238 | merging again changes nothing |
| Territory.MergedLength | impl/device.cpp:256-265 | the total length grows by exactly the absorbed gaps, at most the tolerance for each entry removed |
| Device.Geometry.Chart | impl/device.cpp:200-222 | charts every extent of a file on its medium and takes every offset and every length but the last, and nothing else, into the mask (`MaskHas`, `Translation.MaskOrigin`) |
| Device.Geometry.Optimize | impl/device.cpp:409-446 | merges the charts of media with real addresses and leaves the others, as `OptimizedIs` says |
| Device.OptimizedIs | impl/device.cpp:409-446 | of any charted tree: the ranges of a block device are spread out by more than the gap, each entry lies in the range its gaps put it into, and the length grows by the absorbed gaps only; other media keep their charts, and none is lost |
| Device.MaskHas | impl/device.cpp:204-211 | the mask holds the bits of every offset and of every length that is not a file's last |
| Translation.MaskOrigin | impl/device.cpp:204-211 | every bit of the mask is one of some offset, or of some length that is not its file's last |
| Translation.GranularExactly | impl/device.cpp:204-211 | a power of two is granular enough for a tree if and only if it divides every offset and every length that is not its file's last |
| Device.ChartSeparate | impl/device.cpp:214-222 | entering extents that agree with each other keeps each chart free of overlaps |
| Volume.LowerBound | impl/device.cpp:13-22 | six shifts of doubling width set exactly the bits from the lowest one up, for every 64-bit mask |
| Volume.GranularityIs | impl/device.cpp:327 | a power of two is in the granularity exactly when no bit below it is in the mask |
| Volume.AdjustChooses | impl/volume.cpp:74-105 | with a power of two wanted and contiguous permitted sizes: refused exactly when some bit of the mask is below the smallest permitted size, else a permitted power of two that is granular enough and nearest to the wanted one |
| Translation.RefusedExactly | impl/volume.cpp:74-88 | a tree is refused, whatever size is wanted, if and only if some offset, or some length that is not its file's last, is no multiple of the smallest permitted size |
| Translation.ChosenExactly | impl/volume.cpp:99-102 | told by the files: the chosen size is a permitted power of two that divides what it has to; below the wanted one it is the largest such size or the largest permitted one, above it the smallest permitted one |
| Volume.WantFits | impl/volume.cpp:89-97 | the wanted size is the volume's own unless that is below a sector; without one it serves both media, and a page is asked for only when they are silent |
| Volume.ChosenIsPower | impl/volume.cpp:99-102 | for any wanted size the choice is a power of two exactly when the wanted size is one or shares no bit with the permitted sizes |
| Volume.UnevenSizeTaken | impl/volume.cpp:99-102 | a wanted size of 6144, which shares its bits with the FAT sizes 512 to 16384, is taken as it is, though it is no power of two; `setBlockSize` accepts such a size |
| Words.ClearLow | impl/extent.h:40 | for a power of two, clearing the bits of the block size minus one rounds down to a multiple of the block size |
| Words.RoundUpMask | impl/extent.h:40 | the mask expression of `roundUp` is rounding up by division, unless the sum leaves the word |
| Words.LowBits | impl/extent.h:40 | the word of a block size minus one consists of exactly the bits below that of the block size |
| Words.DividesBits | impl/device.cpp:204-211 | a number is a multiple of a power of two exactly when it has none of the lower bits |
| Burner.Planner.Append | impl/burner.cpp:13-21 | lists nonempty extents, advances the offset by the length, returns where the extent will be, and aborts exactly on a negative length |
| Burner.Planner.PadTo | impl/extent.h:393-394 | moves the offset to the next block, by an extent of zeros |
| Burner.Planner.WrapToGo | impl/burner.h:74 | the wrapped extent runs from the given offset to the padded end |
| Burner.Planner.Commit | impl/burner.cpp:23-43 | the burner receives the bytes of all listed extents in order, and the list is empty |
| Burner.VectBurner.Append | impl/burner.cpp:54-64 | appends the bytes of the extent, or zeros when it has no medium |
| Burner.Copad | impl/burner.cpp:45-52 | both planners are padded to the larger block |
| Translation.ContentPreserved | impl/device.cpp:448-473 | after charting, merging with any tolerance, padding and burning, the target bytes at the translated address of an extent are the bytes of the extent |
| Translation.NoSharing | impl/device.cpp:448-473 | different source bytes have different target addresses |
| Translation.PlacesApart | impl/device.cpp:448-473 | different extents are translated to ranges that do not overlap |
| Translation.TranslatedAligned | impl/device.cpp:448-479 | when a block size divides all charted offsets and the file area is aligned, every translated address is a multiple of it, on the disk and within the area |
| Translation.WriteFiles | impl/device.cpp:448-465 | every range of every chart goes where `Layout.LinksOf` computes, medium by medium, each behind the one before and padded to a block; its bytes are there, apart from all others, and everything between ranges is zero |
| Translation.LaidFor | impl/device.cpp:448-465 | the layout is aligned to every divisor of the padding block on which the file area begins, such as a cluster smaller than the block of the burner |
| Layout.EndAligned | impl/device.cpp:448-465 | what divides the beginning of the area and the padding block divides the place of every range |
| Layout.FirstRange | impl/device.cpp:448-465 | the first range of the first medium is at the beginning of the area |
| Layout.NextRange | impl/device.cpp:448-465 | between a range and the next one on its medium there is only the padding to a block |
| Layout.NextMedium | impl/device.cpp:448-465 | so it is between the last range of a medium and the first of the next medium |
| Layout.LastRange | impl/device.cpp:448-465 | and the area ends with the padding of the last range of the last medium |
| Translation.Represent | impl/volume.cpp:43-71 | charts, chooses, merges, plans and burns in the order of the source; refuses if and only if some offset, or some length but a file's last, is no multiple of the smallest permitted size; otherwise the whole image is known: the headers at 0, zeros up to the file area, the ranges with zeros between, and the metadata behind the area, with which the image ends; and the volume is in the state the other lemmas start from |
| Translation.AreaAligned | impl/vfat32.cpp:296-300 | the file area begins on the first block behind the headers when these are padded, and right behind them when not; on a block, too, when they take whole blocks |
| Translation.FileRepresented | impl/volume.cpp:43-105 | end to end, for a file area that begins on a block: the chosen block size is a permitted power of two, every extent of every file is found byte for byte at a multiple of it, and every length but a file's last is a multiple too |
| FatTable.VFatMedium.SetLine | impl/vfat32.cpp:152-168 | in a sparse table every cluster of the range but the last points to the next; in a dense one the cluster before the range is guarded |
| FatTable.VFatMedium.Shadow | impl/vfat32.cpp:170-176 | the cluster before an extent gets an end mark unless it has an amendment already |
| FatTable.VFatMedium.SetNext | impl/vfat32.cpp:178-187 | the link replaces whatever the cluster had, and aborts exactly past the end of the table |
| FatTable.VFatMedium.Reserve | impl/vfat32.cpp:146-150 | sizes the table and a chunk of whole lanes |
| FatTable.VFatMedium.Incise | impl/vfat32.cpp:308-334 | a file's extents, entered last to first, leave exactly its lines and links; aborts exactly when one ends past the table |
| FatTable.PlanTable | impl/vfat32.cpp:282-293 | the amendments of a whole volume, for files and directories in any order |
| FatChains.FileFollows | impl/vfat32.cpp:308-334 | following the table from the first cluster of any file or directory of nonempty extents visits exactly the clusters of its extents in order and then meets the end mark, if and only if no extent of it loses its link; in sparse and dense tables, whatever the order of processing, with empty and shared extents among the others |
| FatChains.LinkKept | impl/vfat32.cpp:178-187 | the last cluster of an extent holds its link exactly when the extent entered last of those that end there has the same successor |
| FatChains.KeptExactly | impl/vfat32.cpp:308-334 | told by the files in the order in which they are entered, the extents of each last to first: a link is kept if and only if the last of the extents that end on its cluster has the same successor |
| FatChains.AllKept | impl/vfat32.cpp:308-334 | all chains of a volume are whole if and only if extents that end on one cluster always have the same successor |
| FatChains.UsualVolumes | impl/device.h:38-41 | that is so on every volume of one-extent files, empty ones included, and on every volume whose files share extents only as hard links do; and on these no two links lead to the same cluster |
| FatChains.AppendedCopyCuts | impl/device.cpp:100-198 | and it is not when a file shares all its extents with another one that goes on, as after appending to a copy by reference: then one of the two chains is lost |
| FatChains.CopyRunsOn | impl/device.cpp:100-198 | such volumes of every size: a host that follows the shorter file runs on into the longer one |
| FatChains.NoCrossLinks | impl/vfat32.cpp:152-192 | in the dense table no two data clusters lead to the same cluster, if and only if no two of the extents that were entered last where they end have the same successor; shared and empty extents included |
| FatChains.AllChained | impl/vfat32.cpp:308-334 | every link of a volume but the end mark is the start of an extent, as `NoCrossLinks` asks |
| FatChains.GapsStayOut | impl/vfat32.cpp:170-176 | a cluster outside all extents leads to an end mark or to another such cluster; the one before an empty extent may lead where that extent does |
| FatChains.SparseAgrees | impl/vfat32.cpp:152-168 | sparse and dense tables have the same entry on every cluster of an extent and on every cluster before an empty one, and a sparse table marks all other data clusters free |
| FatChains.ExtentEntries | impl/vfat32.cpp:152-192 | inside an extent every cluster leads to the next, whatever else is entered, and the last one holds the link of the extent entered last of those that end there |
| FatVolume.ChainsLaid | impl/vfat32.cpp:302-334 | the cluster ranges of translated extents, empty and shared ones included, when none ends past the table: they lie inside it, any two of them the same or disjoint, and are nonempty where the extent is |
| FatVolume.RunPlace | impl/vfat32.cpp:260 | a file area of at most as many clusters as the table has data entries ends within the table |
| FatVolume.BothLaid | impl/vfat32.cpp:468-474 | the directories behind the files are laid out as the table needs, together with the files |
| FatVolume.DirKept | impl/vfat32.cpp:468-474 | a directory shares its last cluster with nothing, so its chain is kept |
| FatVolume.FileKept | impl/vfat32.cpp:308-334 | files whose extents agree, as on the usual volumes, keep their chains with the directories entered behind them |
| RuleMedium.WriteToFd | impl/extent.cpp:101-116 | every word of the target after any range of the medium has been written: the generated words within the range, the amendments counted from the start of the write even past its end, the target as it was elsewhere |
| RuleMedium.WrittenHolds | impl/extent.cpp:101-116 | the generated words with the amendments over them are the table a host should read |
| RuleMedium.WrittenWhole | impl/extent.cpp:101-116 | a medium written from its start, with any chunk size, comes out whole, and what lies before and after it in the target stays |
| RuleMedium.RangeWritten | impl/extent.cpp:104-115 | a range of an allocation table is written correctly if and only if it begins at the start of the table |
| RuleMedium.ChainLinksFit | impl/vfat32.cpp:308-334 | the links of the files of a volume are clusters of the table or end marks, as `RangeWritten` asks |
| RuleMedium.FillVector | impl/vfat32.cpp:209-232 | the four-lane fill stores the same words as the scalar one, up to the end of the last quad |
| RuleMedium.FillScalar | impl/vfat32.cpp:227-231 | every entry points to the next, modulo 2 to the 32 |
| RuleMedium.Fill | impl/vfat32.cpp:196-233 | generates the rule in both modes; a sparse chunk past the first leaves the reused buffer as it is |
| RuleMedium.BuildFat | impl/vfat32.cpp:282-334 | from the files of a volume to the words of the table in the target, nothing else there being touched, and back to the clusters a host visits: the file is followed to its end if and only if none of its links is lost |
| FatImage.FatRepresent | impl/vfat32.cpp:263-335 | a FAT32 volume from its files to its image: charts, cluster size, headers, copies of the table, files, directories, amendments and burning in the order of the source; it refuses exactly when some offset or inner length is no multiple of 512, aborts exactly when something ends past the table, and otherwise the whole image is known: headers at 0, the tables from the first cluster behind them on, the files with zeros between, and what stands behind them up to the end; a host that takes any copy of the table from the bytes of the image finds the media type in it and gets the bytes of every file that keeps its links, and of every directory all its bytes, its chain having the least number of clusters that hold them |
| FatImage.ChainsAllRight | impl/vfat32.cpp:466-474 | the chains told by the files and by the directories' own sizes: those of the files follow their extents, and each directory has the least number of clusters that hold it, the last directory right behind the files and each other one behind the next |
| FatImage.DirBytes | impl/vfat32.cpp:466-474 | a host that follows the chain of a directory and reads its clusters gets the bytes that stand behind the files from its place on, for the whole of its size |
| FatImage.ReservedWords | impl/vfat32.cpp:284-292 | the first reserved entry holds the media type, and the second the clean marks, unless an empty extent at the very beginning of the area ends there |
| FatImage.MakeTable | impl/vfat32.cpp:282-334 | the bytes the medium of the table has in the end, or the abort |
| FatImage.TableInImage | impl/vfat32.cpp:295-299 | every copy of the table is in the image, behind the padded headers |
| FileReading.FatVolumeRead | impl/vfat32.cpp:302-334 | a host that follows the chain of a file through the table and reads the clusters it visits out of the burnt image gets the bytes the extents of the file had on their media, up to any size within them |
| FileReading.FatFileRead | impl/vfat32.cpp:302-334 | the same for one file whose chain is followed |
| FileReading.FileIsAt | impl/volume.cpp:43-105 | what is proved of the represented volume is what the three readers start from, for every file |
| FileReading.HfsVolumeRead | impl/hfplus.cpp:339-371 | a host that looks the blocks of a fork up in the catalog record and the bytes of the overflow file, and reads them out of the image, gets the bytes of the extents, up to any size within them, when the packing loses no block; extents may be listed more than once |
| FileReading.HfsFileRead | impl/hfplus.cpp:339-371 | the same for blocks found by walking the extents |
| FileReading.DescsPositive | impl/hfplus.cpp:353-356 | nonempty extents are recorded as nonempty runs of blocks, which is what `HfsFork.BlockMap` starts from |
| FileReading.DescsApart | impl/hfplus.cpp:353-356 | different extents are recorded as runs of blocks that do not overlap |
| FileReading.CdFileRead | impl/cd9660.cpp:186-204 | a host that follows the directory records of a file into the burnt image gets the bytes of its extents, cut at its size, when the file ends inside its last extent |
| FileReading.CdListedFileRead | impl/cd9660.cpp:186-204 | from the image alone: among the entries read at the place of a folder are those of every file it lists, under its name, and following them gives the bytes the file's extents had on their source media, cut at its size, when it ends inside its last extent |
| Reading.ReadParts | impl/volume.cpp:43-105 | parts that stand on blocks, all but the last of whole blocks, are read block by block as one piece |
| CdDirectory.DirectoryRead | impl/cd9660.cpp:133-219 | a reader that steps by the length byte and skips to the next sector on a zero finds exactly the entries listed, in order, with all their fields; what these are for each folder and file is `CdTree.DirectoryIsListed` |
| CdDirectory.DirectoryRoundTrip | impl/cd9660.cpp:133-141 | the same for any list of records of at most 255 bytes |
| CdDirectory.WithinSector | impl/cd9660.cpp:133-141 | no record crosses the end of a sector |
| CdDirectory.RecordRoundTrip | impl/cd9660.h:115-132 | all fields of a record read back as written, place and length in both byte orders, and the fixed fields are the ones of a plain record on volume 1 |
| CdDirectory.FileCovered | impl/cd9660.cpp:186-204 | the records of a file are flagged as continued but for the last and their lengths sum to its size, if and only if the file ends inside its last extent and no part is longer than the field |
| CdDirectory.FileReadBack | impl/cd9660.cpp:186-204 | a reader that follows the records of such a file gets the bytes of its extents, cut at its size |
| CdDirectory.EntriesAreParts | impl/cd9660.cpp:186-204 | each extent has a record with its own address and the length and flag of its part |
| CdDirectory.DirBurner.WriteEntry | impl/cd9660.cpp:133-141 | appends a record, after zeros when it does not fit the sector |
| CdDirectory.DirBurner.WriteDirectory | impl/cd9660.cpp:143-221 | writes the directory `DirectoryRead` reads, the two leading records without regard to sectors; `CdTree.DirectoryIsListed` tells what is in it by the items' own fields |
| CdDirectory.DotDotStored | impl/cd9660.cpp:158-167 | storing a new dot-dot record gives the directory that would have been written with it |
| CdDirectory.LengthStored | impl/cd9660.cpp:149-156 | storing the directory's own length later gives the directory that would have been written with it |
| Folders.PlanFolders | impl/cd9660.cpp:124-233 | processes the path list in reverse: every listed folder's place is recorded before its parent is written, and the places, listings and dot-dot records come out as planned, for every tree shape, on CD and FAT volumes |
| Folders.RecordsPointRight | impl/cd9660.cpp:158-232 | every dot-dot record is written exactly once, with the final place of the real parent's directory, and every listing gives the final places of its folders; the root is its own parent on a CD and has no dot-dot record on a FAT volume |
| Folders.DirectoryOnTarget | impl/cd9660.cpp:109-129 | the address computed for a directory before it is written is where its bytes are on the target in the end |
| Folders.DirectoriesApart | impl/cd9660.cpp:129-224 | directories do not overlap and start on blocks |
| Folders.PathList | impl/volume.cpp:11-16 | in the path list of any tree a folder comes after its parent and siblings keep different names |
| Folders.EveryFolderListed | impl/volume.cpp:11-16 | the path list of any tree has a line for every folder, under the full path that the parents given in the list spell, and no other line |
| Folders.ListedOnce | impl/volume.cpp:11-16 | no two lines of it have the same path |
| Folders.Catchup | impl/vfat32.cpp:478-482 | all waiting fixups of a folder get its place, each once |
| CdAssembly.WriteTree | impl/cd9660.cpp:124-233 | the loop over all folders with the bytes of each: listings with the places recorded so far, the own length stored behind, dot-dot records stored when the parent's place is known; in the end every directory is byte for byte the one with all final places and lengths, and the planner lists them as planned |
| CdAssembly.DirectorySize | impl/cd9660.cpp:133-224 | the size of a directory depends on the names it lists and on nothing that is stored later |
| CdTree.TreeWritten | impl/cd9660.cpp:109-232 | directories assembled with all fixups, as `CdAssembly.WriteTree` leaves them, laid out as planned and burnt, stand in the image where the plan says |
| CdTree.DirectoryReadBack | impl/cd9660.cpp:124-233 | the directory of every folder, read at its planned place, is its own entry, its parent's with the parent's place, and its listing with the places of its folders |
| CdTree.DirectoryIsListed | impl/cd9660.cpp:124-233 | by the fields of the items themselves: the directory of every folder, read at its planned place, has as many entries as its items need, its own, its parent's, and then for every item in order, where the items before it end: for a folder one entry with its name, date and final place; for a file one entry for each extent with its name, date, address, part of the size and flag, from which a reader gets the file's bytes cut at its size when it ends inside its last extent |
| CdTree.EveryFolderReached | impl/cd9660.cpp:124-233 | a walk from the root directory, opening one folder entry after another by the address and length in it, reaches the directory of every folder |
| CdPathTable.WalkFolders | impl/cd9660.cpp:236-283 | the loop terminates and emits a path table: every folder once, or the first 65535 of them; all of them when there are fewer than 65536 |
| CdPathTable.EmittedRight | impl/cd9660.cpp:259-283 | records come in strictly increasing order of level, parent number and name, the root first, and each parent number is the number of the real parent, given earlier |
| CdPathTable.TableUnique | impl/cd9660.cpp:259-283 | there is only one such table of a tree: the order and the parent numbers determine it |
| CdPathTable.InsertChild | impl/cd9660.cpp:271-281 | a child's key is new to the map and comes after the folder being listed, so nothing walked already moves |
| CdPathTable.TreeValid | impl/volume.cpp:11-16 | the folders of every source tree meet what the loop needs |
| Unique.Cmp | impl/unique.cpp:102-115 | the sign of `cmp` is that of the order in which the first segment that differs decides, missing segments being empty; zero exactly when all segments agree |
| Unique.CompareParts | impl/unique.cpp:117-130 | decides that order for two parts by comparing their characters, an empty part being the smallest |
| Unique.PartsSign | impl/unique.cpp:117-130 | the exact sign for all parts: by characters up to and including the first NUL, then by length; zero exactly when these agree |
| Unique.PlainParts | impl/unique.h:173-188 | for parts without NUL, the only ones that the rules for names let through, this is the lexicographic order, and zero means equality |
| Unique.Total | impl/unique.h:44-51 | of any two names exactly one comes first or all their segments agree |
| Unique.BeforeTransitive | impl/unique.h:44-51 | the order is transitive |
| Unique.SameInOrder | impl/unique.h:44-51 | names with the same segments are interchangeable as map keys |
| Unique.PlainNames | impl/unique.h:173-188 | names without NUL compare equal exactly when their segments are the same, and otherwise by the lexicographic order of the first segment that differs |

## Left out

- Device mapper, ZRAM, extent ioctls, file descriptors and mounts: kernel interfaces; the extents of a file and the contents of media are parameters.
- The bytes `BitsMedium::fill` produces: only sizes and ranges of bitmaps are modelled, with the bitmap an arbitrary function.
- HFS+ name correction and decomposition, character set conversion, long FAT names and 8.3 names: names are sequences of numbers that come in converted and, among siblings, distinct.
- The retry loop of `NamePool::fitName`: its termination depends on a random source.
- FAT boot sector and free-cluster counters, volume descriptors, timestamps, CHS arithmetic, checksums: fields that feed none of the structures here.
- Path table bytes and the folder addresses in them: records of a number, a name and an address in two byte orders, no harder than the directory records.
- Catalog contents (folder, file and thread records): payloads are arbitrary bytes of a sorted map.
- The order of entries in a FAT directory and in `Folders.PlanFolders`: any order is allowed, each folder's subfolders being given as a list.
- Folders.PlanFolders: the sizes of the directories are given, and their contents are media of their own; `CdAssembly.WriteTree` computes both for a CD.
- Translation.Represent: the temporary planner, other volumes laid over this one, and what a file system appends before and after the files are given as lists of extents; `FatImage.FatRepresent` has the tables of a FAT volume among them.
- `Geometry::analyze`, lanes and cost estimates: they only print.
- HfsImage.HostFinds: for fewer than 2 to the 32 nodes and node sizes below 65536, the widths of the fields; beyond that the fields wrap. Index records that do not fit a node in pairs are excluded, since then a level need not shrink.
- HfsImage.BuildFile: what it writes for 2 to the 32 nodes or more (`fits` false) is not modelled.
- HfsFork.BlockMap: block numbers are unbounded, so it does not model extents past 2 to the 32 blocks (`HfsOverflow.HostReadsFork` asks that the numbers recorded fit their fields). For extents that share blocks it does not say when the condition is necessary: a misplaced block may then be right by chance.
- HfsBitmap.Complete: both planners' block sizes divide the volume's, one divides the other, and both planners start on a block of their own, as they do after the trees have been written.
- Territory.SharedRange: for charts whose entries do not overlap, the promise made at impl/device.h:77-78; on overlapping entries the loop may shrink a range, because it takes the next entry's end.
- Device.ChartSeparate: extents that start together on a medium are the same extent; a later one would replace the earlier.
- Translation.FileRepresented: the wanted size and the burner's block are powers of two and the permitted sizes contiguous, as every volume's are; `Volume.ChosenIsPower` says what happens otherwise.
- FatImage.FatRepresent: the estimate of the cluster count and the sizes of the directories are given, and the bytes of FAT directories, and the zeros that fill up the area claimed, are whatever the list behind the files brings; headers are padded on the target instead of the temporary medium; no file lies on the temporary medium. More clusters than the 28 bits of an entry number (`TooMany`) are not modelled.
- CdAssembly.WriteTree: the entries of each folder come in their final order under their final names, and all numbers fit their fields.
- HfsSlave.SlaveExact: the granularity of the sources is at least the block of the volume laid over, as its own choice of a block size ensures.
- FatChains.FileFollows: follows files all of whose extents are nonempty; where the chain of an empty file leads is not promised, since its first cluster need not be its own. Extents are the same or disjoint, as `FatVolume.ChainsLaid` shows.
- CdDirectory.FileCovered: a file without extents has no record at all, and is not covered.
- CdDirectory.DirBurner.WriteDirectory: record fields fit their widths, with names of at most 221 bytes, the most a record's length byte allows.
- Unique.Cmp: for names whose separators increase; the magnitude of the result is not modelled beyond its sign.
- Object lifetimes: the contents of a `TempExtent` are read when the planner is committed.
