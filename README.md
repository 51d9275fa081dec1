# PseuWoW model loaders and animated scene node, in Dafny

PseuWoW is a World of Warcraft client. This project models the part of it
that turns the game's binary model files into Irrlicht meshes and animates
them on screen:

- the M2 loader (`CM2MeshFileLoader`), which reads a model header, its views
  (from the model itself before format 0x108, from numbered `.skin` files
  from 0x108 on), vertices, texture definitions and names, animation
  sequences (with their `.anim` files), bones, colours and animation blocks,
  then assembles skins, submesh records with their footprints and
  decal/sort fix-ups, the buffer map, the skeleton, and one mesh buffer per
  submesh with its material and joint weights;
- the mesh it fills (`CM2Mesh`) and its `Group_of_Points` bounding boxes;
- the WMO loader (`CWMOMeshFileLoader`): the chunk loop over a root or group
  file, the texture names, the per-triangle texture runs, and the buffers a
  group adds;
- the animated scene node (`CM2MeshSceneNode`): frame loops, frame
  advancement with wrapping or clamping, joint transition blending, the end
  callback, child removal and pass registration;
- the file cache (`MemoryDataHolder`): file-name builders, reference counts
  and the loader bookkeeping of `GetFile`, `run` and `Delete`;
- the loading screen (`SceneLoading`): gathering the doodads of the nine
  tiles around the player, sorting and de-duplicating them, and loading one
  per update.

Files are values: `Src(data, pos)` is a file's bytes and cursor. A read
delivers what is left when fewer bytes remain, and lands over the struct it
reads into, so a short read keeps the struct's old tail (`Overlay`). A
struct the C++ declares without initialising it is read as zeros. Two
indeterminate scalars are the exception: they are `None` (see "Left out").
Other behaviour the C++ leaves undefined (reading past a vector's end, a
buffer overflow, a loop that never ends) is the outcome `Undefined`, except
for the logging calls and the local-branch texture name bound listed under
"Left out". Everything else is
`Done(value)`. What the code gets from outside (the archive's files, which
textures exist, what a file read yields, the near tiles) is a parameter.

Each loop of the source is a method proved equal to a function that
specifies it. The properties the code promises are lemmas about those
functions. The mesh, the scene node, the cache, the loading screen and the
WMO loader are classes whose methods update their fields.

Modules: `Wrappers` (outcomes), `Bytes`, `ByteSource`, `Decimal`,
`M2Geometry`, `M2Records`, `M2Tables`, `M2Anim`, `M2Readers`, `M2Skeleton`,
`M2Views`, `M2Loader`, `M2Mesh`, `M2Ordering`, `M2SubmeshBuild`,
`M2Assembly`, `M2BufferMap`, `M2Build`, `M2Load`, `WmoChunks`, `WmoGroup`,
`WmoLoader`, `M2SceneNode`, `MemoryDataHolder`, `SceneLoading`.

## Model

| member | source | states |
|---|---|---|
| Bytes.Signed16 | src/Client/GUI/CM2MeshFileLoader.h:116-128 | a u16 pattern stored into an s16 field reads as the value in [-32768, 32767] congruent to it modulo 2^16 |
| Bytes.Signed32 | src/Client/GUI/CM2MeshFileLoader.h:187-196 | a u32 pattern stored into an s32 (the skeleton bone index, a frame number) reads as the value in [-2^31, 2^31) congruent to it modulo 2^32 |
| Bytes.WrapU16 | src/Client/GUI/CM2MeshFileLoader.cpp:1034-1034 | assignment to a u16 keeps values below 2^16 and stays below 2^16 |
| Bytes.WrapU32 | src/Client/GUI/CM2MeshFileLoader.cpp:470-472 | u32 arithmetic keeps values below 2^32 and stays below 2^32 |
| Bytes.DecodeEncodeU32 | src/Client/GUI/CM2MeshFileLoader.h:19-22 | the little-endian u32 decoding reads back the value encoded |
| Bytes.EncodeDecodeU32 | src/Client/GUI/CM2MeshFileLoader.h:19-22 | encoding a decoded u32 gives back its four bytes |
| ByteSource.Chunk | src/Client/GUI/CM2MeshFileLoader.cpp:74-74 | a read of n bytes hands over at most n bytes |
| ByteSource.ChunkFacts | src/Client/GUI/CM2MeshFileLoader.cpp:74-74 | a read that fits delivers exactly the bytes asked for, one that runs past the end delivers what is left, and one from past the end nothing |
| ByteSource.Overlay | src/Client/GUI/CM2MeshFileLoader.cpp:116-116 | a read into a struct leaves it as long as it was |
| ByteSource.OverlayParts | src/Client/GUI/CM2MeshFileLoader.cpp:116-116 | after a short read the struct's head is what was read and its tail what it held before |
| ByteSource.AfterReads | src/Client/GUI/CM2MeshFileLoader.cpp:109-120 | k reads into one reused struct give k copies, the struct keeps its size and the cursor never moves back |
| ByteSource.RecordsEndIsClamped | src/Client/GUI/CM2MeshFileLoader.cpp:71-79 | a run of reads ends at the end of the records or at the end of the file, whichever comes first |
| ByteSource.ReadInBounds | src/Client/GUI/CM2MeshFileLoader.cpp:109-120 | when all records lie inside the file, read k+1 delivers exactly the k-th record and nothing of the previous one stays in the struct |
| ByteSource.ReadsKeepTail | src/Client/GUI/CM2MeshFileLoader.cpp:116-116 | reads shorter than the struct never touch its tail, however many there are |
| ByteSource.ReadStep | src/Client/GUI/CM2MeshFileLoader.cpp:113-120 | one more read overlays the struct with what the next read delivers and appends a copy |
| ByteSource.Blank | src/Client/GUI/CM2MeshFileLoader.cpp:70-70 | a struct declared without initialiser has the struct's size |
| ByteSource.Seek | src/Client/GUI/CM2MeshFileLoader.cpp:71-71 | an absolute seek within the file puts the cursor there; past the end it fails and leaves the file alone |
| ByteSource.Read | src/Client/GUI/CM2MeshFileLoader.cpp:74-74 | a read delivers what Chunk says and moves the cursor by exactly that many bytes |
| ByteSource.TableRead | src/Client/GUI/CM2MeshFileLoader.cpp:90-96 | a table read yields n records, each as long as the struct, and does not change the file's bytes |
| ByteSource.TableReadStays | src/Client/GUI/CM2MeshFileLoader.cpp:90-96 | a table read never moves the cursor back nor past the end of the file |
| ByteSource.ReadTable | src/Client/GUI/CM2MeshFileLoader.cpp:91-96 | the seek-and-read loop yields the records and file TableRead specifies and leaves the struct as AfterReads says |
| ByteSource.TableInBounds | src/Client/GUI/CM2MeshFileLoader.cpp:90-96 | a table wholly inside the file holds the file's consecutive records |
| ByteSource.FreshTable | src/Client/GUI/CM2MeshFileLoader.cpp:449-455 | a table read into a struct declared afresh per record yields n records of the struct's size and moves the cursor by what the reads deliver |
| ByteSource.ReadFreshTable | src/Client/GUI/CM2MeshFileLoader.cpp:449-455 | the read loop with a fresh struct per record yields what FreshTable specifies |
| ByteSource.RecordsWidth | src/Client/GUI/CM2MeshFileLoader.cpp:113-120 | every record of a table read is as long as the struct |
| ByteSource.Resize | src/Client/GUI/CM2MeshFileLoader.cpp:568-568 | std::string::resize gives exactly n bytes: the old ones, then NULs |
| ByteSource.CString | src/Client/GUI/CM2MeshFileLoader.cpp:572-572 | c_str() shows the longest NUL-free prefix: no NUL in it, and a NUL right after it unless it is the whole buffer |
| ByteSource.CStringBeforeNul | src/Client/GUI/CM2MeshFileLoader.cpp:572-572 | a NUL at z ends the string at or before z |
| ByteSource.CStringPrefix | src/Client/GUI/CM2MeshFileLoader.cpp:572-572 | two buffers that agree up to a NUL show the same string |
| ByteSource.CStringNoNul | src/Client/GUI/CM2MeshFileLoader.cpp:572-572 | a buffer without NUL shows whole |
| ByteSource.CStringStopsAtNul | src/Client/GUI/CM2MeshFileLoader.cpp:572-572 | a NUL hides everything after it |
| Decimal.NatToString | src/Client/GUI/CM2MeshFileLoader.cpp:477-477 | the %u rendering is never empty |
| Decimal.ZeroPad | src/Client/GUI/CM2MeshFileLoader.cpp:477-477 | %0Nd padding gives max(N, length) characters |
| Decimal.NatToStringShape | src/Client/GUI/CM2MeshFileLoader.cpp:477-477 | the rendering holds only digits, has no leading zero except for 0, and has one character exactly below 10 |
| Decimal.ParseNatToString | src/Client/GUI/CM2MeshFileLoader.cpp:477-477 | parsing the rendering gives the number back |
| Decimal.NatToStringInjective | src/Client/GUI/CM2MeshFileLoader.cpp:477-477 | different numbers have different renderings |
| Decimal.ParseLeadingZeros | src/Client/GUI/CM2MeshFileLoader.cpp:477-477 | leading zeros do not change the number read back |
| Decimal.ParsePadDecimal | src/Client/GUI/CM2MeshFileLoader.cpp:477-477 | a zero-padded rendering reads back as the number and is at least as wide as the padding |
| Decimal.NatToStringLength | src/Client/GUI/CM2MeshFileLoader.cpp:476-477 | below 10^w the rendering has at most w characters |
| Decimal.NatToStringLong | src/Client/GUI/CM2MeshFileLoader.cpp:476-477 | from 10^w on the rendering has more than w characters |
| Decimal.CPath | src/Client/GUI/CM2MeshFileLoader.cpp:478-478 | c_str() handed to a std::string keeps everything before the first NUL and nothing else |
| Decimal.CPathWhole | src/Client/GUI/CM2MeshFileLoader.cpp:478-478 | a name without NUL passes through c_str() whole |
| M2Geometry.FixCoordSystem | src/Client/GUI/CM2MeshFileLoader.cpp:25-28 | the Y and Z coordinates trade places, X is kept |
| M2Geometry.FixQuaternion | src/Client/GUI/CM2MeshFileLoader.cpp:30-33 | the Y and Z of the vector part trade places, X and W are kept |
| M2Geometry.FixCoordSystemInvolution | src/Client/GUI/CM2MeshFileLoader.cpp:25-28 | the coordinate fix undone by itself gives the vector back |
| M2Geometry.FixQuaternionInvolution | src/Client/GUI/CM2MeshFileLoader.cpp:30-33 | the quaternion fix undone by itself gives the quaternion back |
| M2Geometry.ShortToReal | src/Client/GUI/CM2MeshFileLoader.cpp:225-228 | a quantised short decodes into [-1, 1], positive shorts to at most 0 and the others above -1 |
| M2Geometry.ShortToRealOrder | src/Client/GUI/CM2MeshFileLoader.cpp:225-228 | the decoding rises strictly within each half of the s16 range, 32767 and -32767 both give 0 and 0 gives 1 |
| M2Records.DecodeNumOfs | src/Client/GUI/CM2MeshFileLoader.h:19-22 | a count and an offset, each a u32 |
| M2Records.NumOfsRoundTrip | src/Client/GUI/CM2MeshFileLoader.h:19-22 | decoding an encoded numofs gives it back |
| M2Records.NumOfsBytesRoundTrip | src/Client/GUI/CM2MeshFileLoader.h:19-22 | encoding a decoded numofs gives back its eight bytes |
| M2Records.Patch | src/Client/GUI/CM2MeshFileLoader.cpp:936-939 | a read into the middle of the header replaces exactly the bytes it covers |
| M2Records.DecodeSubmesh | src/Client/GUI/CM2MeshFileLoader.h:104-114 | the u16 fields of a ModelViewSubmesh are below 2^16 |
| M2Records.SubmeshReadSize | src/Client/GUI/CM2MeshFileLoader.cpp:116-116 | format 0x100 reads 16 bytes less of a submesh, and only that format does |
| M2Records.SubmeshBoundsLocal | src/Client/GUI/CM2MeshFileLoader.h:104-114 | the submesh's BB and Radius come only from its last 16 bytes |
| M2Records.LegacySubmeshesKeepBounds | src/Client/GUI/CM2MeshFileLoader.cpp:113-120 | in format 0x100 every submesh read keeps the BB and Radius the reused record held before the first read |
| M2Records.DecodeTextureUnit | src/Client/GUI/CM2MeshFileLoader.h:116-128 | a texture unit's flags are a u16 and its render order and colour index s16 |
| M2Records.DecodeModelVertex | src/Client/GUI/CM2MeshFileLoader.h:86-93 | every field of the 48-byte vertex record comes from its own offset: position at 0, four byte-sized weights at 12, four byte-sized bone indices at 16, normal at 20, texture coordinates at 32 |
| M2Records.DecodeRawAnimationWotlk | src/Client/GUI/CM2MeshFileLoader.h:147-158 | a 0x108 sequence's ids and probability are u16 and its length a u32 |
| M2Records.DecodeBoneHead | src/Client/GUI/CM2MeshFileLoader.h:187-196 | a bone's parent is an s16 |
| M2Tables.U16TableInBounds | src/Client/GUI/CM2MeshFileLoader.cpp:91-96 | a u16 table inside the file holds the file's little-endian values, one per two bytes from the offset |
| M2Tables.ViewData | src/Client/GUI/CM2MeshFileLoader.cpp:83-138 | ReadViewData yields one index, triangle, submesh and texture unit per count of the view and leaves the file's bytes alone |
| M2Tables.LegacyViewBounds | src/Client/GUI/CM2MeshFileLoader.cpp:113-120 | in format 0x100 every submesh of a view has the BB and Radius of a zeroed record, whatever the file holds |
| M2Tables.FixVertexDecode | src/Client/GUI/CM2MeshFileLoader.cpp:75-77 | the in-place swap of the vertex struct is the coordinate fix of position and normal and changes no other field |
| M2Tables.FixVertexKeeps | src/Client/GUI/CM2MeshFileLoader.cpp:75-77 | the swap keeps the weights, bone indices and texture coordinates byte for byte |
| M2Tables.VerticesAt | src/Client/GUI/CM2MeshFileLoader.cpp:73-79 | vertex k is the struct as read k+1 left it |
| M2Tables.VerticesAfterStep | src/Client/GUI/CM2MeshFileLoader.cpp:73-79 | one more vertex read overlays the struct, swaps position and normal in place and appends a copy |
| M2Tables.VertexTable | src/Client/GUI/CM2MeshFileLoader.cpp:64-81 | ReadVertices yields one vertex per count and leaves the file's bytes alone |
| M2Tables.VertexTableInBounds | src/Client/GUI/CM2MeshFileLoader.cpp:64-81 | a vertex table inside the file holds each 48-byte record of the file with position and normal fixed |
| M2Tables.NameStep | src/Client/GUI/CM2MeshFileLoader.cpp:566-573 | a defined name read appends one name of at most texFileLen+1 characters and leaves the file's bytes alone |
| M2Tables.NameStepIs | src/Client/GUI/CM2MeshFileLoader.cpp:568-572 | a name read is the resize, seek, read and c_str, and is undefined exactly when the read delivers more bytes than the resized buffer holds |
| M2Tables.NamesUpTo | src/Client/GUI/CM2MeshFileLoader.cpp:566-573 | the name loop yields one name per definition |
| M2Tables.TextureData | src/Client/GUI/CM2MeshFileLoader.cpp:514-575 | ReadTextureDefinitions yields the lookup, definition and render flag tables with their counts and one name per definition |
| M2Tables.NameInBounds | src/Client/GUI/CM2MeshFileLoader.cpp:566-573 | a name stored with its NUL inside the file reads back as the file's bytes before the NUL, whatever the buffer held |
| M2Tables.NameWithoutNulKeepsStaleByte | src/Client/GUI/CM2MeshFileLoader.cpp:568-572 | a name stored without NUL picks up the buffer's byte just past it, left over from a longer earlier name |
| M2Tables.Stem | src/Client/GUI/CM2MeshFileLoader.cpp:478-478 | the model name without its last three characters |
| M2Tables.AnimFileNameShape | src/Client/GUI/CM2MeshFileLoader.cpp:476-478 | the name buffer overflows exactly when the id needs five digits or the sub-id three, and otherwise the suffix is the four-digit id, '-', the two-digit sub-id and ".anim", which read back as the ids |
| M2Tables.LegacyAnimation | src/Client/GUI/CM2MeshFileLoader.cpp:452-461 | a sequence before 0x108 takes its id, start and end from the record, and its sub-id and flags from what the fresh struct held |
| M2Tables.WotlkAnimation | src/Client/GUI/CM2MeshFileLoader.cpp:462-472 | a 0x108 sequence takes its ids and flags from the record, starts at laststart and ends length later in u32 arithmetic |
| M2Tables.OpenAnim | src/Client/GUI/CM2MeshFileLoader.cpp:479-488 | the .anim file is found exactly when the archive holds the name, and is then opened at its start |
| M2Tables.AnimationOf | src/Client/GUI/CM2MeshFileLoader.cpp:462-493 | a record is undefined exactly when it is not flagged 0x20 and its ids overflow the name buffer; a flagged record gets an empty slot, any other the file named after the model and its ids; the next start is 1000 after its end |
| M2Tables.AnimationsFrom | src/Client/GUI/CM2MeshFileLoader.cpp:449-496 | the sequence loop yields one sequence and one slot per record |
| M2Tables.AnimationsSnoc | src/Client/GUI/CM2MeshFileLoader.cpp:449-496 | one more record that yields a sequence appends it, its slot and the next start |
| M2Tables.AnimationsFailAt | src/Client/GUI/CM2MeshFileLoader.cpp:476-477 | one more record that overflows the name buffer makes the whole table undefined |
| M2Tables.LegacyAnimationsSnoc | src/Client/GUI/CM2MeshFileLoader.cpp:452-461 | one more legacy record read into a fresh struct appends exactly its sequence |
| M2Tables.WotlkRecordAt | src/Client/GUI/CM2MeshFileLoader.cpp:462-465 | 0x108 record i is what read i delivers, padded with zeros |
| M2Tables.AnimationTable | src/Client/GUI/CM2MeshFileLoader.cpp:442-496 | the table holds one sequence per count; before 0x108 the .anim file list is unchanged, from 0x108 on it grows by one slot per sequence after the old ones |
| M2Tables.AnimationData | src/Client/GUI/CM2MeshFileLoader.cpp:357-512 | ReadAnimationData yields the two bone lookup tables and the animation table and leaves the file's bytes alone |
| M2Tables.AnimationTimeline | src/Client/GUI/CM2MeshFileLoader.cpp:470-472 | the sequences lie on one timeline: the first starts at 0, each next one 1000 after the previous end (mod 2^32), each keeps its record's ids, length and flags and has its .anim slot |
| M2Tables.AnimationsOverflow | src/Client/GUI/CM2MeshFileLoader.cpp:473-478 | the table is undefined exactly when some record without flag 0x20 has ids too long for the name buffer |
| M2Tables.Repeat | src/Client/GUI/CM2MeshFileLoader.cpp:249-265 | reading a table entry by entry yields one entry per count |
| M2Tables.RepeatAll | src/Client/GUI/CM2MeshFileLoader.cpp:249-265 | a property every single entry read has, every entry of the table has |
| M2Tables.BoneStep | src/Client/GUI/CM2MeshFileLoader.cpp:250-260 | one bone read keeps the model file's bytes and the list of .anim files |
| M2Tables.BoneTable | src/Client/GUI/CM2MeshFileLoader.cpp:242-266 | ReadBones yields one bone per count |
| M2Tables.BoneRotationInRange | src/Client/GUI/CM2MeshFileLoader.cpp:255-257 | from 0x104 on a bone's rotation values all lie in [-1, 1] |
| M2Tables.BoneTableRotationsInRange | src/Client/GUI/CM2MeshFileLoader.cpp:255-257 | from 0x104 on every rotation value of every bone lies in [-1, 1] |
| M2Tables.ColorStep | src/Client/GUI/CM2MeshFileLoader.cpp:279-284 | one colour read keeps the model file's bytes and the list of .anim files |
| M2Tables.ColorTable | src/Client/GUI/CM2MeshFileLoader.cpp:269-286 | ReadColors yields one colour per count |
| M2Tables.ColorAlphaInRange | src/Client/GUI/CM2MeshFileLoader.cpp:282-283 | a colour's alpha values all lie in [-1, 1] |
| M2Tables.ColorTableAlphasInRange | src/Client/GUI/CM2MeshFileLoader.cpp:282-283 | every alpha value of every colour lies in [-1, 1] |
| M2Anim.SourceOf | src/Client/GUI/CM2MeshFileLoader.cpp:172-183 | a sequence's tables come from its own .anim file when it has one, and then that file exists in the list |
| M2Anim.Stamps | src/Client/GUI/CM2MeshFileLoader.cpp:185-189 | one timestamp per record |
| M2Anim.ShortValuesOf | src/Client/GUI/CM2MeshFileLoader.cpp:225-228 | one value per short, each in [-1, 1] |
| M2Anim.BlockHead | src/Client/GUI/CM2MeshFileLoader.cpp:144-149 | the header reads keep the model file's bytes |
| M2Anim.OffsetsOf | src/Client/GUI/CM2MeshFileLoader.cpp:157-167 | the offset tables keep the model file's bytes and leave the reused numofs struct its size |
| M2Anim.StampStep | src/Client/GUI/CM2MeshFileLoader.cpp:168-190 | a skipped sequence has no timestamps, any other exactly its count; the step is undefined exactly past the end of the sequence list or, from 0x108 on, of the .anim file list |
| M2Anim.StampsUpTo | src/Client/GUI/CM2MeshFileLoader.cpp:168-190 | the timestamp loop keeps the model file's bytes and the number of .anim files |
| M2Anim.ValueStep | src/Client/GUI/CM2MeshFileLoader.cpp:205-236 | a skipped sequence has no values, any other num*datanum (u32) values, shorts all in [-1, 1] |
| M2Anim.ValuesUpTo | src/Client/GUI/CM2MeshFileLoader.cpp:205-236 | the value loop keeps the model file's bytes and the number of .anim files |
| M2Anim.ReadABlockSpec | src/Client/GUI/CM2MeshFileLoader.cpp:140-239 | ReadABlock keeps the model file's bytes and the number of .anim files |
| M2Anim.ShortValuesInRange | src/Client/GUI/CM2MeshFileLoader.cpp:225-228 | every short value the loop reads lies in [-1, 1] |
| M2Anim.ShortBlockInRange | src/Client/GUI/CM2MeshFileLoader.cpp:218-235 | a block of shorts holds only values in [-1, 1] |
| M2Anim.BlockHeadAdvances | src/Client/GUI/CM2MeshFileLoader.cpp:144-149 | a header inside the file advances the cursor by its size in that format (28 bytes before 0x108, 20 from then on) |
| M2Anim.ReadABlockRestoresCursor | src/Client/GUI/CM2MeshFileLoader.cpp:238-238 | whatever the tables read, the model file ends just after the block's header |
| M2Readers.ReadOffsets | src/Client/GUI/CM2MeshFileLoader.cpp:157-167 | the offset loop yields what OffsetsOf specifies |
| M2Readers.ReadStampsOf | src/Client/GUI/CM2MeshFileLoader.cpp:170-190 | one sequence's timestamps are what StampStep specifies |
| M2Readers.ReadStamps | src/Client/GUI/CM2MeshFileLoader.cpp:168-190 | the timestamp loop yields what StampsUpTo specifies |
| M2Readers.ReadValuesOf | src/Client/GUI/CM2MeshFileLoader.cpp:207-235 | one sequence's values are what ValueStep specifies |
| M2Readers.ReadValues | src/Client/GUI/CM2MeshFileLoader.cpp:205-236 | the value loop yields what ValuesUpTo specifies |
| M2Readers.ReadABlock | src/Client/GUI/CM2MeshFileLoader.cpp:140-239 | ReadABlock yields what ReadABlockSpec specifies |
| M2Readers.ReadViewTables | src/Client/GUI/CM2MeshFileLoader.cpp:83-138 | the view loops yield what ViewData specifies |
| M2Readers.ReadVertexTable | src/Client/GUI/CM2MeshFileLoader.cpp:64-81 | the vertex loop yields what VertexTable specifies |
| M2Readers.ReadNextVertex | src/Client/GUI/CM2MeshFileLoader.cpp:74-78 | one vertex read is one VerticesAfter step and decodes to the vertex appended |
| M2Readers.ReadTextureNames | src/Client/GUI/CM2MeshFileLoader.cpp:564-574 | the name loop yields what NamesUpTo specifies |
| M2Readers.ReadNextName | src/Client/GUI/CM2MeshFileLoader.cpp:568-572 | one name read is what NameStep specifies |
| M2Readers.ReadTextureTables | src/Client/GUI/CM2MeshFileLoader.cpp:514-575 | ReadTextureDefinitions yields what TextureData specifies |
| M2Readers.ReadLegacyAnimations | src/Client/GUI/CM2MeshFileLoader.cpp:449-461 | the legacy sequence loop yields what LegacyAnimations of a fresh-struct table specifies |
| M2Readers.ReadWotlkAnimations | src/Client/GUI/CM2MeshFileLoader.cpp:449-496 | the 0x108 sequence loop yields what AnimationsFrom specifies |
| M2Readers.ReadAnimationTable | src/Client/GUI/CM2MeshFileLoader.cpp:442-496 | the sequence loop yields what AnimationTable specifies |
| M2Readers.ReadAnimationTables | src/Client/GUI/CM2MeshFileLoader.cpp:357-512 | ReadAnimationData yields what AnimationData specifies |
| M2Readers.ReadBone | src/Client/GUI/CM2MeshFileLoader.cpp:250-260 | one bone read is what BoneStep specifies |
| M2Readers.ReadBoneTable | src/Client/GUI/CM2MeshFileLoader.cpp:242-266 | the bone loop yields what BoneTable specifies |
| M2Readers.ReadColor | src/Client/GUI/CM2MeshFileLoader.cpp:279-284 | one colour read is what ColorStep specifies |
| M2Readers.ReadColorTable | src/Client/GUI/CM2MeshFileLoader.cpp:269-286 | the colour loop yields what ColorTable specifies |
| M2Skeleton.MeshAnimations | src/Client/GUI/CM2MeshFileLoader.cpp:580-583 | one mesh animation per sequence, in order, with the sequence's id and probability |
| M2Skeleton.MeshAnimationFrames | src/Client/GUI/CM2MeshFileLoader.cpp:582-582 | a start or end below 2^31 reaches the mesh unchanged; larger ones arrive negative (the s32 parameters), congruent modulo 2^32 |
| M2Skeleton.JointNamesIdentifyKeyBones | src/Client/GUI/CM2MeshFileLoader.cpp:599-706 | key bones 0 to 34 get a name, every other index (-1 included) leaves it empty |
| M2Skeleton.KeysKeepValues | src/Client/GUI/CM2MeshFileLoader.cpp:708-738 | the key copies are defined exactly when the values cover three (position, scale) or four (rotation) per timestamp; then there is one key per timestamp at its frame, and undoing the axis swap gives the file's values back |
| M2Skeleton.CopyPositionKeys | src/Client/GUI/CM2MeshFileLoader.cpp:708-716 | the position key loop yields what PositionKeys specifies |
| M2Skeleton.CopyRotationKeys | src/Client/GUI/CM2MeshFileLoader.cpp:717-728 | the rotation key loop yields what RotationKeys specifies |
| M2Skeleton.CopyScaleKeys | src/Client/GUI/CM2MeshFileLoader.cpp:730-738 | the scale key loop yields what ScaleKeys specifies |
| M2Skeleton.JointsUpTo | src/Client/GUI/CM2MeshFileLoader.cpp:587-753 | the joint loop yields one joint per bone |
| M2Skeleton.ParentsPrecede | src/Client/GUI/CM2MeshFileLoader.cpp:589-597 | a joint is a root exactly when its bone's parent is -1, and otherwise its parent is an earlier joint, so the skeleton is a forest laid out parents first; each joint carries its bone's name and pivot and no weights |
| M2Skeleton.CopyBone | src/Client/GUI/CM2MeshFileLoader.cpp:589-752 | one bone appends exactly its joint to the mesh, or reports an undefined lookup |
| M2Skeleton.CopyAnimations | src/Client/GUI/CM2MeshFileLoader.cpp:580-583 | the mesh's animation list grows by exactly the sequences' animations |
| M2Skeleton.CopyJoints | src/Client/GUI/CM2MeshFileLoader.cpp:587-753 | the mesh's joints grow by exactly the joints JointsUpTo specifies |
| M2Skeleton.CopyAnimationsToMesh | src/Client/GUI/CM2MeshFileLoader.cpp:578-754 | CopyAnimationsToMesh appends the animations and then the skeleton JointsUpTo specifies |
| M2Views.HeaderRest | src/Client/GUI/CM2MeshFileLoader.cpp:918-940 | the header reads after the prefix leave the header its size and the file's bytes alone |
| M2Views.WotlkHeaderGaps | src/Client/GUI/CM2MeshFileLoader.cpp:933-939 | for 0x108 the four reads skip the D numofs, the Views offset and the I numofs, which keep what the struct held |
| M2Views.WotlkHeaderFromFile | src/Client/GUI/CM2MeshFileLoader.cpp:933-939 | for 0x108 every other byte of the header comes from the file, in the struct's layout |
| M2Views.LegacyHeaderFromFile | src/Client/GUI/CM2MeshFileLoader.cpp:926-926 | a legacy header is the next bytes of the file after the prefix, and the cursor moves past them |
| M2Views.SkinNameShape | src/Client/GUI/CM2MeshFileLoader.cpp:946-963 | a skin name is the model stem, the view number zero-padded to two digits (which read back as the number) and ".skin" |
| M2Views.SkinNamesDiffer | src/Client/GUI/CM2MeshFileLoader.cpp:946-963 | different views have different skin names |
| M2Views.ViewLoopAll | src/Client/GUI/CM2MeshFileLoader.cpp:945-982 | the u16 loop reads every view exactly when there are fewer than 65536 and all are present, and then appends one skin per view after the old ones |
| M2Views.ViewLoopMissing | src/Client/GUI/CM2MeshFileLoader.cpp:966-971 | a loop that stops early stops at the first view that is not present |
| M2Views.ViewLoopHangs | src/Client/GUI/CM2MeshFileLoader.cpp:945-945 | the u16 loop never ends exactly when there are 65536 views or more and all 65536 are present |
| M2Views.SkinStep | src/Client/GUI/CM2MeshFileLoader.cpp:966-979 | a skin is read exactly when its file is in the archive, and then one skin is appended |
| M2Views.SkinsOutcome | src/Client/GUI/CM2MeshFileLoader.cpp:945-982 | the skin loop reads all skins exactly when there are fewer than 65536 and every name exists, and otherwise stops at the first missing name or never ends |
| M2Views.ReadSkin | src/Client/GUI/CM2MeshFileLoader.cpp:966-979 | one pass of the skin loop is what SkinStep specifies |
| M2Views.ReadSkins | src/Client/GUI/CM2MeshFileLoader.cpp:945-982 | the skin loop yields what SkinsFrom specifies |
| M2Views.HeadAndViews | src/Client/GUI/CM2MeshFileLoader.cpp:915-991 | a defined header read leaves the header its full size |
| M2Views.HeadAndViewsVersions | src/Client/GUI/CM2MeshFileLoader.cpp:918-991 | load rejects exactly the versions other than 0x100 and 0x104-0x108 and then reads nothing past the prefix; a legacy version reads one view |
| M2Views.Versions101To103Rejected | src/Client/GUI/CM2MeshFileLoader.cpp:918-990 | versions 0x101 to 0x103 are rejected |
| M2Views.ReadHeadAndViews | src/Client/GUI/CM2MeshFileLoader.cpp:915-991 | the first part of load yields what HeadAndViews specifies |
| M2Loader.ReadModelTables | src/Client/GUI/CM2MeshFileLoader.cpp:992-998 | the table reads after the views yield what ModelTablesOf specifies |
| M2Loader.ReadsOf | src/Client/GUI/CM2MeshFileLoader.cpp:915-998 | the reading part of load leaves every table sized as its class demands |
| M2Loader.ReadAll | src/Client/GUI/CM2MeshFileLoader.cpp:915-998 | the reading part of load yields what ReadsOf specifies |
| M2Loader.M2Loader.ReadViewData | src/Client/GUI/CM2MeshFileLoader.cpp:83-138 | ReadViewData appends exactly the skin ViewData specifies |
| M2Loader.M2Loader.ReadVertices | src/Client/GUI/CM2MeshFileLoader.cpp:64-81 | ReadVertices sets the vertex table and the cursor as VertexTable specifies |
| M2Loader.M2Loader.ReadTextureDefinitions | src/Client/GUI/CM2MeshFileLoader.cpp:514-575 | ReadTextureDefinitions sets the four texture tables as TextureData specifies |
| M2Loader.M2Loader.ReadAnimationData | src/Client/GUI/CM2MeshFileLoader.cpp:357-512 | ReadAnimationData sets the lookups, sequences and .anim files as AnimationData specifies |
| M2Loader.M2Loader.ReadBones | src/Client/GUI/CM2MeshFileLoader.cpp:242-266 | ReadBones sets the bone table as BoneTable specifies |
| M2Loader.M2Loader.ReadColors | src/Client/GUI/CM2MeshFileLoader.cpp:269-286 | ReadColors sets the colour table as ColorTable specifies |
| M2Loader.M2Loader.ReadModel | src/Client/GUI/CM2MeshFileLoader.cpp:915-998 | the loader's members end as ReadsOf specifies |
| M2Loader.M2Loader.CleanUp | src/Client/GUI/CM2MeshFileLoader.cpp:1435-1458 | the clean-up empties the tables load clears and keeps the others |
| M2Load.Load | src/Client/GUI/CM2MeshFileLoader.cpp:911-1459 | load returns false with the mesh untouched for an unknown version or a missing .skin file; after successful reads it is Undefined unless AssemblyDefined holds, and otherwise returns true with the mesh assembled from what was read and the tables cleaned up. AssemblyDefined needs at least two submeshes on each side of radius 70 in every skin (see FewInBucketLoadUndefined) |
| M2Load.FewInBucketLoadUndefined | src/Client/GUI/CM2MeshFileLoader.cpp:1117-1134 | a load whose reads succeed is Undefined when some skin has at most one submesh of radius 70 or more, or at most one below 70 |
| M2Mesh.CM2Mesh.constructor | src/Client/GUI/CM2Mesh.h:264-285 | a new mesh (declared at CM2Mesh.h:26) has no buffers, mesh parts, joints, animations, skins, textures or buffer map, and skin 0 is selected |
| M2Mesh.CM2Mesh.AddMeshBuffer | src/Client/GUI/CM2Mesh.h:136-141 | addMeshBuffer(id) appends the mesh part id, renders it by default only for part 0, and appends an empty buffer whose index it returns |
| M2Mesh.CM2Mesh.AddJoint | src/Client/GUI/CM2Mesh.h:144-144 | addJoint appends one unnamed joint without keys or weights under its parent and returns its index |
| M2Mesh.CM2Mesh.AddWeight | src/Client/GUI/CM2Mesh.h:150-150 | addWeight appends one weight to that joint and changes nothing else |
| M2Mesh.CM2Mesh.NewAnimation | src/Client/GUI/CM2Mesh.h:154-154 | newAnimation appends one animation |
| M2Mesh.ExtendContains | src/Client/GUI/CM2Mesh.h:329-337 | after extend(v) the box holds v, has no NaN edge and has not shrunk |
| M2Mesh.ExtendKeeps | src/Client/GUI/CM2Mesh.h:329-337 | a point the box held it still holds after any extension |
| M2Mesh.BoxOfContains | src/Client/GUI/CM2Mesh.h:339-349 | every indexed position lies in the computed box |
| M2Mesh.GetValueByAxis | src/Client/GUI/CM2Mesh.h:322-327 | axes 1, 2 and 3 give X, Y and Z |
| M2Mesh.SelectPartitions | src/Client/GUI/CM2Mesh.h:351-373 | every index is selected by exactly one of the two answers |
| M2Mesh.SelectSides | src/Client/GUI/CM2Mesh.h:351-373 | a selected index is valid and passes the test as wanted |
| M2Mesh.SplitPartitions | src/Client/GUI/CM2Mesh.h:351-373 | the intended split puts every index in exactly one of the two groups |
| M2Mesh.SplitSides | src/Client/GUI/CM2Mesh.h:351-373 | the intended split moves exactly the indices beyond the split point, and all indices stay valid |
| M2Mesh.SplitAsWrittenStopsEarly | src/Client/GUI/CM2Mesh.h:351-373 | the split as written keeps a point beyond the split point: of two such points it moves only the first |
| M2Mesh.GroupOfPoints.constructor | src/Client/GUI/CM2Mesh.h:299-305 | a new group has the default box and no indices |
| M2Mesh.GroupOfPoints.Empty | src/Client/GUI/CM2Mesh.h:308-315 | a group is empty exactly when it has no indices or its box is a single point |
| M2Mesh.GroupOfPoints.ExtendBy | src/Client/GUI/CM2Mesh.h:329-337 | the box becomes its extension by the point |
| M2Mesh.GroupOfPoints.ComputeBBox | src/Client/GUI/CM2Mesh.h:339-349 | the box becomes the impossibly small box extended by every indexed position in turn, which by BoxOfContains holds each of them |
| M2Mesh.GroupOfPoints.Split | src/Client/GUI/CM2Mesh.h:351-373 | the group keeps exactly the indices not beyond its box's midpoint on the axis, a fresh group gets the others, and both boxes are recomputed |
| M2Ordering.Swap | src/Client/GUI/CM2MeshFileLoader.h:341-344 | an exchange swaps exactly the two entries and keeps the multiset |
| M2Ordering.DistancePass | src/Client/GUI/CM2MeshFileLoader.h:338-346 | one inner pass of sortDistance keeps the multiset, leaves entries outside [i, end) alone and brings the largest Distance of [i, end) to i |
| M2Ordering.DistanceSwapStep | src/Client/GUI/CM2MeshFileLoader.h:339-345 | an exchange keeps the pass invariants |
| M2Ordering.SortDistance | src/Client/GUI/CM2MeshFileLoader.h:333-348 | sortDistance permutes the entries, leaves the last one in place and orders all the others by decreasing Distance |
| M2Ordering.StartIndex | src/Client/GUI/CM2MeshFileLoader.h:356-356 | the search starts at i-1 stored in an s16, which is i-1 for i up to 32768 and never above it |
| M2Ordering.SearchHostNearest | src/Client/GUI/CM2MeshFileLoader.h:357-367 | the search finds the nearest earlier entry that encloses the decal, and finds nothing only when no entry at or below its start encloses it |
| M2Ordering.FixDecals | src/Client/GUI/CM2MeshFileLoader.h:350-370 | the fix-up keeps every entry in place and changes at most its Distance |
| M2Ordering.HostStep | src/Client/GUI/CM2MeshFileLoader.h:362-364 | a decal that found its host takes the host's already fixed Distance minus 0.0005 |
| M2Ordering.NoHostStep | src/Client/GUI/CM2MeshFileLoader.h:352-368 | an entry that is no decal, or finds no host, keeps its Distance |
| M2Ordering.FixOneDecal | src/Client/GUI/CM2MeshFileLoader.h:353-368 | one pass of the outer loop is one PartlyFixed step |
| M2Ordering.FixDecalDistance | src/Client/GUI/CM2MeshFileLoader.h:350-370 | FixDecalDistance leaves the array as FixDecals specifies |
| M2Ordering.FixDecalsChangesOnlyDecalDistances | src/Client/GUI/CM2MeshFileLoader.h:350-370 | only the Distance of a decal strictly between the first and the last entry can change; every other field and entry is kept |
| M2Ordering.FixDecalsUsesNearestHost | src/Client/GUI/CM2MeshFileLoader.h:355-367 | a decal with a host ends 0.0005 nearer than its host's final Distance, and the host is the nearest earlier entry that encloses it |
| M2Ordering.EnclosesIgnoresHostHmin | src/Client/GUI/CM2MeshFileLoader.h:360-360 | the enclosure test compares the decal's Hmin with itself, so it ignores the host's Hmin |
| M2Ordering.ModeSwapStep | src/Client/GUI/CM2MeshFileLoader.h:446-450 | an exchange keeps the pass invariants |
| M2Ordering.ModePass | src/Client/GUI/CM2MeshFileLoader.h:435-452 | one inner pass brings the smallest Mode from i on to position i and keeps the multiset |
| M2Ordering.SortSizeBracketByMode | src/Client/GUI/CM2MeshFileLoader.h:430-453 | sortSizeBracketByMode permutes the entries into ascending Mode of their first texture |
| M2Ordering.ModePrefixGrows | src/Client/GUI/CM2MeshFileLoader.h:433-452 | after a pass at i the ordered prefix takes in entry i |
| M2Ordering.BlockPass | src/Client/GUI/CM2MeshFileLoader.h:460-478 | one inner pass brings the smallest Block among the entries with the Mode of entry i to position i |
| M2Ordering.BlockSwapStep | src/Client/GUI/CM2MeshFileLoader.h:470-475 | an exchange keeps the Mode at every position and the pass invariants |
| M2Ordering.SortModeByBlock | src/Client/GUI/CM2MeshFileLoader.h:456-479 | sortModeByBlock permutes the entries, keeps the Mode at every position and orders each Mode's entries by Block |
| M2Ordering.BlockPrefixGrows | src/Client/GUI/CM2MeshFileLoader.h:459-478 | after a pass at i the prefix ordered within each Mode takes in entry i |
| M2Ordering.SortPointHighLow | src/Client/GUI/CM2MeshFileLoader.h:507-530 | sortPointHighLow permutes the buffer map and keeps every sort point set |
| M2SubmeshBuild.RebaseIntoRange | src/Client/GUI/CM2MeshFileLoader.cpp:765-770 | within a vertex range that fits in 16 bits an index is rebased into [0, n) exactly when it lies in the submesh's range, and adding the offset back restores it; an index below the range wraps around |
| M2SubmeshBuild.RebasedIndices | src/Client/GUI/CM2MeshFileLoader.cpp:765-770 | a submesh has one rebased index per triangle entry |
| M2SubmeshBuild.RebaseIndices | src/Client/GUI/CM2MeshFileLoader.cpp:765-770 | the index loop yields what RebasedIndices specifies |
| M2SubmeshBuild.SlotAdds | src/Client/GUI/CM2MeshFileLoader.cpp:776-785 | a vertex adds at most one weight per slot |
| M2SubmeshBuild.WeightAddsTagged | src/Client/GUI/CM2MeshFileLoader.cpp:776-785 | every weight a submesh adds has a positive strength, names a vertex of the buffer and carries the buffer's number |
| M2SubmeshBuild.WithWeights | src/Client/GUI/CM2MeshFileLoader.cpp:778-783 | adding weights keeps the number of joints |
| M2SubmeshBuild.WeightsReachTheirJoints | src/Client/GUI/CM2MeshFileLoader.cpp:778-783 | every joint gets exactly the weights meant for it, in order, after the ones it had, and nothing else about it changes |
| M2SubmeshBuild.WithWeightsStep | src/Client/GUI/CM2MeshFileLoader.cpp:778-783 | one more add appends one weight to its joint |
| M2SubmeshBuild.AddSlotWeights | src/Client/GUI/CM2MeshFileLoader.cpp:776-785 | the slot loop leaves the joints as WithWeights specifies, or reports a slot naming an unknown joint |
| M2SubmeshBuild.AddVertexWeights | src/Client/GUI/CM2MeshFileLoader.cpp:772-787 | the weight loops leave the joints as WithWeights specifies, or report an unknown joint |
| M2SubmeshBuild.CopyVertices | src/Client/GUI/CM2MeshFileLoader.cpp:772-787 | the vertex loop yields the submesh's vertices and the joints VerticesAndWeights specifies |
| M2SubmeshBuild.RenderFlagMasks | src/Client/GUI/CM2MeshFileLoader.cpp:861-897 | the material's lighting, fog, culling and z-write agree with the render flag bits 0x01, 0x02, 0x04, 0x10; blending 0 is solid, 1 alpha test, 2 to 6 a one-texture blend with that mode, anything else keeps the type |
| M2SubmeshBuild.MaterialOnlyOwnUnits | src/Client/GUI/CM2MeshFileLoader.cpp:790-800 | only the texture units of the submesh itself shape its material, in their order |
| M2SubmeshBuild.UnitlessSubmeshDefault | src/Client/GUI/CM2MeshFileLoader.cpp:790-900 | a submesh without texture units keeps the default material |
| M2SubmeshBuild.MaterialFor | src/Client/GUI/CM2MeshFileLoader.cpp:790-900 | the texture unit loop yields what MaterialUpTo specifies |
| M2SubmeshBuild.TextureNameOverflowUndefined | src/Client/GUI/CM2MeshFileLoader.cpp:805-806 | a texture name of 1000 bytes or more on a unit of the submesh overflows the 1000-byte name buffer, so the submesh's material is undefined |
| M2SubmeshBuild.NewSubMesh | src/Client/GUI/CM2MeshFileLoader.cpp:757-908 | a defined submesh build keeps the number of joints and gives the buffer the hardware hint |
| M2SubmeshBuild.BuildANewSubMesh | src/Client/GUI/CM2MeshFileLoader.cpp:757-908 | BuildANewSubMesh appends the mesh part id, its default render flag and the buffer NewSubMesh specifies, and leaves the joints with their new weights |
| M2Assembly.NearestFromIsFirstMinimum | src/Client/GUI/CM2MeshFileLoader.cpp:1038-1053 | the scan ends with a distance no greater than the start and than every vertex scanned; it keeps the starting index only when no vertex was nearer, and otherwise ends at the first vertex of least distance |
| M2Assembly.NearestVertex | src/Client/GUI/CM2MeshFileLoader.cpp:1041-1049 | the nearest-vertex loop yields what NearestFrom specifies |
| M2Assembly.Widen | src/Client/GUI/CM2MeshFileLoader.cpp:1066-1082 | one vertex widens the footprint so that it holds the vertex's X and Y, and the footprint never shrinks |
| M2Assembly.ScanBounds | src/Client/GUI/CM2MeshFileLoader.cpp:1056-1085 | the footprint loop yields what SubmeshBounds specifies |
| M2Assembly.BoundsFromContains | src/Client/GUI/CM2MeshFileLoader.cpp:1064-1083 | the footprint contains the starting footprint and every vertex scanned |
| M2Assembly.SubmeshBoundsContain | src/Client/GUI/CM2MeshFileLoader.cpp:1056-1085 | a submesh's footprint contains its centre of mass (X and Z of the stored vector) and every vertex of its range but the last |
| M2Assembly.SubmeshBoundsSkipLastVertex | src/Client/GUI/CM2MeshFileLoader.cpp:1064-1064 | the last vertex of a submesh plays no part in its footprint |
| M2Assembly.UnitsOf | src/Client/GUI/CM2MeshFileLoader.cpp:1089-1092 | the units of submesh s are units whose submeshIndex1 is s, in order |
| M2Assembly.TexturesOfMatchingUnits | src/Client/GUI/CM2MeshFileLoader.cpp:1089-1114 | the texture list of a submesh is defined exactly when each of its units has a texture record, and then is those records in the units' order |
| M2Assembly.CollectTextures | src/Client/GUI/CM2MeshFileLoader.cpp:1089-1114 | the texture loop yields what TexturesUpTo specifies |
| M2Assembly.UniqueNameIdentifiesRange | src/Client/GUI/CM2MeshFileLoader.cpp:1030-1036 | two submeshes of one model with the same name have the same first vertex and the same u16 end of range |
| M2Assembly.SubmeshEntry | src/Client/GUI/CM2MeshFileLoader.cpp:1021-1114 | a defined submesh record carries its index as LoaderIndex and the submesh's radius |
| M2Assembly.SubmeshEntryNearest | src/Client/GUI/CM2MeshFileLoader.cpp:1038-1053 | a submesh's Distance is at most the start value and at most the squared distance of each of its vertices; its nearest vertex, when set, lies in its range and has exactly that distance |
| M2Assembly.BuildSubmesh | src/Client/GUI/CM2MeshFileLoader.cpp:1021-1124 | the body of the submesh loop yields what SubmeshEntry specifies |
| M2Assembly.EntriesUpTo | src/Client/GUI/CM2MeshFileLoader.cpp:1019-1125 | the submesh loop yields one record and one footprint per submesh |
| M2Assembly.EntriesAreSubmeshEntries | src/Client/GUI/CM2MeshFileLoader.cpp:1019-1125 | record i is the record of submesh i, with LoaderIndex i and its footprint at position i |
| M2Assembly.Bucket | src/Client/GUI/CM2MeshFileLoader.cpp:1117-1124 | a bucket holds only submeshes of the skin on its side of radius 70 |
| M2Assembly.BucketsPartition | src/Client/GUI/CM2MeshFileLoader.cpp:1117-1124 | every submesh lands in exactly one bucket |
| M2Assembly.FewInBucketUndefined | src/Client/GUI/CM2MeshFileLoader.cpp:1117-1134 | a skin with at most one submesh of radius 70 or more, or at most one below 70, is undefined: the unsigned bounds size()-2 and size()-1 of sortDistance, FixDecalDistance and the copy loops run past such a bucket |
| M2Assembly.CopyOut | src/Client/GUI/CM2MeshFileLoader.cpp:1130-1134 | the copy holds every sky entry but the last and every scene entry but the last |
| M2Assembly.CopyOutOrdered | src/Client/GUI/CM2MeshFileLoader.cpp:1130-1134 | the copied sky entries have strictly decreasing distances, so they keep their order if sorted again; the scene entries follow unchanged and farthest first |
| M2Assembly.CollectEntries | src/Client/GUI/CM2MeshFileLoader.cpp:1019-1125 | the submesh loop is defined exactly when all records are, and then yields the two buckets of those records and the footprints |
| M2Assembly.EntriesStep | src/Client/GUI/CM2MeshFileLoader.cpp:1117-1124 | one more record extends the records and exactly one bucket |
| M2Assembly.CopyBuckets | src/Client/GUI/CM2MeshFileLoader.cpp:1130-1134 | the copy loops yield what CopyOut specifies |
| M2Assembly.AssembleSkin | src/Client/GUI/CM2MeshFileLoader.cpp:1010-1137 | one skin is defined exactly when SkinDefined says, and is then numbered S and holds the fixed and sorted buckets, copied |
| M2BufferMap.FirstUnitFrom | src/Client/GUI/CM2MeshFileLoader.cpp:1162-1168 | a unit found lies in the table at or after the start |
| M2BufferMap.FirstUnitFromIsFirst | src/Client/GUI/CM2MeshFileLoader.cpp:1162-1168 | the search finds the first unit that applies to the submesh, and finds none only when none applies |
| M2BufferMap.FindUnit | src/Client/GUI/CM2MeshFileLoader.cpp:1162-1168 | the unit search loop yields what UnitOf specifies |
| M2BufferMap.SortPointPrecedence | src/Client/GUI/CM2MeshFileLoader.cpp:1256-1273 | the eight rules applied in turn give the same sort point as reading them by precedence: overlays first, then mode 2 by radius, then mode 1, else the previous entry's |
| M2BufferMap.SortPointCarriedOver | src/Client/GUI/CM2MeshFileLoader.cpp:1256-1273 | the previous entry's sort point survives exactly when no rule fires (neither mode 1, nor mode 2 away from radius 10 and 50, nor an overlay away from radius 50) |
| M2BufferMap.MapUpTo | src/Client/GUI/CM2MeshFileLoader.cpp:1160-1277 | the map loop yields one entry per submesh |
| M2BufferMap.MapEntryDescribes | src/Client/GUI/CM2MeshFileLoader.cpp:1162-1254 | entry i describes submesh i through the first texture unit that applies to it: ID i, that unit's mode, order and block, solid exactly when its blending is at most 1, and a box of one point at the submesh's centre |
| M2BufferMap.MapSortPointChain | src/Client/GUI/CM2MeshFileLoader.cpp:1256-1273 | entry i's sort point follows from its own rules and the sort point of entry i-1 |
| M2BufferMap.BuildEntry | src/Client/GUI/CM2MeshFileLoader.cpp:1162-1276 | one pass of the map loop yields what MapEntry specifies |
| M2BufferMap.BuildBufferMap | src/Client/GUI/CM2MeshFileLoader.cpp:1154-1358 | the buffer map is what BufferMapOf specifies for the default skin |
| M2Build.AssembleSkins | src/Client/GUI/CM2MeshFileLoader.cpp:1010-1137 | the skin loop succeeds exactly when every skin is defined, and then leaves one assembled skin per view, numbered by position |
| M2Build.CopyTextureNames | src/Client/GUI/CM2MeshFileLoader.cpp:1141-1144 | the u16 loop appends every texture name in order exactly when there are fewer than 65536, and otherwise never ends |
| M2Build.AssembleViews | src/Client/GUI/CM2MeshFileLoader.cpp:1010-1358 | the first stage succeeds exactly when ViewsDefined says, and then leaves the skins, skin 0 as default, the texture names and the buffer map |
| M2Build.BobPrefix | src/Client/GUI/CM2MeshFileLoader.cpp:1389-1392 | the name starts with "bob" exactly when its first three characters are "bob"; a shorter name that is a prefix of "bob" is read past its end |
| M2Build.SubMeshesUpTo | src/Client/GUI/CM2MeshFileLoader.cpp:1418-1425 | the buffer loop yields one buffer and one mesh part id per entry and keeps the number of joints |
| M2Build.SubMeshBuffersMatchEntries | src/Client/GUI/CM2MeshFileLoader.cpp:1421-1425 | buffer k holds as many indices as its submesh has triangle entries and as many vertices as its vertex range, with the model's hint and mesh part id |
| M2Build.SubMeshesStep | src/Client/GUI/CM2MeshFileLoader.cpp:1421-1424 | one more defined buffer extends the buffers so far |
| M2Build.RenderFlagsOf | src/Client/GUI/CM2Mesh.h:136-141 | only mesh part 0 renders by default |
| M2Build.BuildEntry | src/Client/GUI/CM2MeshFileLoader.cpp:1424-1424 | the body of the buffer loop is one SubMeshesUpTo step |
| M2Build.BuildSubMeshes | src/Client/GUI/CM2MeshFileLoader.cpp:1418-1427 | the buffer loop succeeds exactly when SubMeshesUpTo is defined and leaves the buffers, ids and render flags it specifies |
| M2Build.AssembleBuffers | src/Client/GUI/CM2MeshFileLoader.cpp:1381-1427 | the second stage appends the sequences' animations, and succeeds exactly when the buffers are defined, leaving them built |
| M2Build.Assemble | src/Client/GUI/CM2MeshFileLoader.cpp:1010-1427 | the assembly of load succeeds exactly when AssemblyDefined says, and then leaves the mesh Assembled |
| WmoChunks.FlipCC | src/Client/GUI/CWMOMeshFileLoader.cpp:8-17 | a turned tag has four bytes |
| WmoChunks.FlipInPlace | src/Client/GUI/CWMOMeshFileLoader.cpp:8-17 | flipcc reverses the first four bytes of the tag buffer and keeps the terminator |
| WmoChunks.FlipCCInvolution | src/Client/GUI/CWMOMeshFileLoader.cpp:8-17 | turning a tag round twice gives it back |
| WmoChunks.ReadChunkHeader | src/Client/GUI/CWMOMeshFileLoader.cpp:97-99 | the header reads keep the file's bytes and the texture offset, never move the cursor back, and move it forward whenever it is before the end |
| WmoChunks.ChunkHeaderInBounds | src/Client/GUI/CWMOMeshFileLoader.cpp:97-99 | a whole header moves the cursor 8 bytes; the tag is the file's four bytes reversed and the size the next four as a u32 |
| WmoChunks.MaterialDefs | src/Client/GUI/CWMOMeshFileLoader.cpp:121-127 | MOMT yields size/64 records, keeps the file's bytes and leaves the cursor within the file |
| WmoChunks.NameStep | src/Client/GUI/CWMOMeshFileLoader.cpp:137-144 | one name read appends one name after the old ones and keeps the file's bytes |
| WmoChunks.NamesUpTo | src/Client/GUI/CWMOMeshFileLoader.cpp:137-144 | the name loop yields one name per record and keeps the file's bytes |
| WmoChunks.NameInFile | src/Client/GUI/CWMOMeshFileLoader.cpp:137-144 | a name inside the file is the C string of its own bytes, whatever the buffer held |
| WmoChunks.NameBufferInFile | src/Client/GUI/CWMOMeshFileLoader.cpp:137-144 | the buffer a name inside the file is read into ends up holding exactly the name's bytes |
| WmoChunks.MaterialsChunk | src/Client/GUI/CWMOMeshFileLoader.cpp:118-147 | a MOMT chunk is defined exactly when it has no records to name or a MOTX chunk came before it; it then yields the records of MaterialDefs, one name each, and ends where the records end |
| WmoChunks.ReadNames | src/Client/GUI/CWMOMeshFileLoader.cpp:137-144 | the name loop yields what NamesUpTo specifies |
| WmoChunks.ReadMaterials | src/Client/GUI/CWMOMeshFileLoader.cpp:118-147 | the MOMT branch yields what MaterialsChunk specifies |
| WmoChunks.TextureIDs | src/Client/GUI/CWMOMeshFileLoader.cpp:158-177 | one texture id per MOPY record, each below 256 |
| WmoChunks.RunStartsMember | src/Client/GUI/CWMOMeshFileLoader.cpp:166-172 | a triangle starts a run exactly when its texture differs from the one before it |
| WmoChunks.RunStartsIncrease | src/Client/GUI/CWMOMeshFileLoader.cpp:166-172 | the run starts rise strictly and are triangles of the chunk |
| WmoChunks.BoundariesShape | src/Client/GUI/CWMOMeshFileLoader.cpp:158-177 | for a non-empty MOPY chunk the boundaries never fall, the last is the last triangle, and every other one starts a run |
| WmoChunks.PolyChunk | src/Client/GUI/CWMOMeshFileLoader.cpp:158-177 | MOPY yields size/2 texture ids with their run boundaries and leaves the cursor within the file |
| WmoChunks.ReadPolys | src/Client/GUI/CWMOMeshFileLoader.cpp:158-177 | the MOPY loop yields what PolyChunk specifies |
| WmoChunks.IndexChunk | src/Client/GUI/CWMOMeshFileLoader.cpp:178-190 | MOVI yields size/2 indices and keeps the cursor within the file |
| WmoChunks.ReadIndices | src/Client/GUI/CWMOMeshFileLoader.cpp:178-190 | the MOVI loop yields what IndexChunk specifies |
| WmoChunks.SwapYZDecodes | src/Client/GUI/CWMOMeshFileLoader.cpp:191-207 | the swapped struct decodes to the file's vector with Y and Z exchanged |
| WmoChunks.SwappedReadsInBounds | src/Client/GUI/CWMOMeshFileLoader.cpp:191-207 | vectors wholly inside the file are the file's vectors with Y and Z swapped |
| WmoChunks.VectorChunk | src/Client/GUI/CWMOMeshFileLoader.cpp:191-224 | MOVT and MONR yield size/12 vectors and keep the cursor within the file |
| WmoChunks.ReadVectors | src/Client/GUI/CWMOMeshFileLoader.cpp:191-224 | the MOVT and MONR loops yield what VectorChunk specifies |
| WmoChunks.TexCoordChunk | src/Client/GUI/CWMOMeshFileLoader.cpp:225-237 | MOTV yields size/8 coordinates and keeps the cursor within the file |
| WmoChunks.ColorChunk | src/Client/GUI/CWMOMeshFileLoader.cpp:238-251 | MOCV yields size/4 colours and keeps the cursor within the file |
| WmoChunks.Skip | src/Client/GUI/CWMOMeshFileLoader.cpp:104-104 | a relative seek never moves the cursor back |
| WmoChunks.ChunkBody | src/Client/GUI/CWMOMeshFileLoader.cpp:102-256 | a defined chunk body keeps the file's bytes, never moves the cursor back and leaves the tables sized |
| WmoChunks.Chunks | src/Client/GUI/CWMOMeshFileLoader.cpp:95-257 | the chunk loop keeps the file's bytes and the tables sized, and when it returns true the cursor is at the end of the file |
| WmoChunks.ReadHeader | src/Client/GUI/CWMOMeshFileLoader.cpp:97-99 | the header reads yield what ReadChunkHeader specifies |
| WmoChunks.ReadChunkBody | src/Client/GUI/CWMOMeshFileLoader.cpp:102-256 | the if-chain yields what ChunkBody specifies |
| WmoChunks.ReadChunks | src/Client/GUI/CWMOMeshFileLoader.cpp:95-257 | the while loop yields what Chunks specifies |
| WmoChunks.SkippedChunk | src/Client/GUI/CWMOMeshFileLoader.cpp:102-117 | MVER, MOTX and unknown chunks are stepped over by exactly their size and leave the tables alone; MOTX records where its names begin |
| WmoChunks.GroupHeaderSkipped | src/Client/GUI/CWMOMeshFileLoader.cpp:152-157 | MOGP steps over the 68-byte group header whatever its size says; it stops a root file and lets a group file go on |
| WmoChunks.WrongKindStops | src/Client/GUI/CWMOMeshFileLoader.cpp:108-113 | a root header in a group file, or a group header in a root file, ends load with false |
| WmoChunks.VectorsSwapped | src/Client/GUI/CWMOMeshFileLoader.cpp:191-224 | every vertex or normal inside the file is the file's vector with Y and Z swapped |
| WmoGroup.GroupVertices | src/Client/GUI/CWMOMeshFileLoader.cpp:261-269 | the vertex list is defined exactly when there are at least as many normals and texture coordinates as positions |
| WmoGroup.BuildVertices | src/Client/GUI/CWMOMeshFileLoader.cpp:261-269 | the vertex loop yields what GroupVertices specifies |
| WmoGroup.TriangleMember | src/Client/GUI/CWMOMeshFileLoader.cpp:279-287 | a triangle is taken exactly when it lies in the range, has three indices and a texture other than 255 |
| WmoGroup.TrianglesDefined | src/Client/GUI/CWMOMeshFileLoader.cpp:279-287 | the loop reads past the texture table exactly when a triangle in range has its indices but no texture entry |
| WmoGroup.EmitTriangles | src/Client/GUI/CWMOMeshFileLoader.cpp:279-287 | the inner loop is defined exactly when Triangles is, and pushes the indices of exactly those triangles, three at a time |
| WmoGroup.SubmeshStepShape | src/Client/GUI/CWMOMeshFileLoader.cpp:272-333 | a step adds at most one buffer, exactly when the texture at lastindex is not 255, and moves lastindex to the boundary unless the buffer's texture was not found |
| WmoGroup.PlanTrianglesBelow | src/Client/GUI/CWMOMeshFileLoader.cpp:271-334 | lastindex and every triangle in a buffer stay below every boundary passed |
| WmoGroup.LastTriangleNeverEmitted | src/Client/GUI/CWMOMeshFileLoader.cpp:271-334 | with the boundaries of the group's MOPY chunk, no buffer ever holds the group's last triangle |
| WmoGroup.GroupOf | src/Client/GUI/CWMOMeshFileLoader.cpp:259-334 | a group adds buffers exactly when its vertices and its submesh plan are defined, and every buffer gets all the group's vertices; a texture name that overflows the 1000-byte name buffer makes the plan undefined (see GroupTextureNameOverflowUndefined) |
| WmoGroup.GroupTextureNameOverflowUndefined | src/Client/GUI/CWMOMeshFileLoader.cpp:309-310 | a run whose texture name has 1000 bytes or more overflows `char buf[1000]`, so the whole group is undefined |
| WmoGroup.Cleared | src/Client/GUI/CWMOMeshFileLoader.cpp:336-342 | after a group load its geometry is cleared and its materials, names and submeshes stay |
| WmoGroup.BuildSubmesh | src/Client/GUI/CWMOMeshFileLoader.cpp:272-333 | one pass of the submesh loop is one SubmeshStep, which is undefined for a texture name too long for the 1000-byte name buffer, and adds exactly its new buffers to the mesh |
| WmoGroup.BuildSubmeshes | src/Client/GUI/CWMOMeshFileLoader.cpp:271-334 | the submesh loop yields what PlanUpTo specifies and adds its buffers to the mesh |
| WmoGroup.AssembleGroup | src/Client/GUI/CWMOMeshFileLoader.cpp:259-334 | a group's assembly succeeds exactly when GroupOf is defined and then adds exactly its buffers to the mesh |
| WmoLoader.LoadOf | src/Client/GUI/CWMOMeshFileLoader.cpp:84-346 | load keeps the file's bytes and the tables sized; a true load has read to the end of the file; a root load or a false one adds no buffer; a true group load clears the group geometry |
| WmoLoader.GroupStem | src/Client/GUI/CWMOMeshFileLoader.cpp:60-60 | the stem handed to %s holds no NUL |
| WmoLoader.GroupFileNameShape | src/Client/GUI/CWMOMeshFileLoader.cpp:59-60 | a group file name is the stem, '_', the group number with at least three digits (exactly three below 1000) which read back as the number, and ".wmo" |
| WmoLoader.GroupFileNamesDiffer | src/Client/GUI/CWMOMeshFileLoader.cpp:59-60 | different groups are read from different files |
| WmoLoader.GroupFileNameFits | src/Client/GUI/CWMOMeshFileLoader.cpp:59-60 | below group 1000 a name fits the 255-byte buffer exactly when the stem has at most 246 characters |
| WmoLoader.GroupsFrom | src/Client/GUI/CWMOMeshFileLoader.cpp:57-69 | a completed group loop keeps the tables sized, only adds buffers, and found the file of every group below the root header's final count |
| WmoLoader.WmoMeshLoader.constructor | src/Client/GUI/CWMOMeshFileLoader.cpp:26-30 | a new loader has no mesh (`Mesh = NULL`); its vectors start empty and its uninitialised root header reads as zeros |
| WmoLoader.WmoMeshLoader.Load | src/Client/GUI/CWMOMeshFileLoader.cpp:84-346 | load leaves its result, the cursor, the tables and the mesh's new buffers as LoadOf specifies |
| WmoLoader.WmoMeshLoader.LoadGroup | src/Client/GUI/CWMOMeshFileLoader.cpp:58-68 | one pass of the group loop returns false exactly when the group's file is missing, and on true leaves the tables and mesh as LoadOf specifies |
| WmoLoader.WmoMeshLoader.LoadGroups | src/Client/GUI/CWMOMeshFileLoader.cpp:57-69 | the group loop returns true exactly when GroupsFrom finds every group file, and the mesh then holds every group's buffers |
| WmoLoader.WmoMeshLoader.CreateMesh | src/Client/GUI/CWMOMeshFileLoader.cpp:47-83 | createMesh returns 0 when there is no file, the root does not load or a group file is missing, and otherwise a new mesh holding exactly the buffers of every group, each on geoset 0 and rendered |
| WmoChunks.ReadPoly | src/Client/GUI/CWMOMeshFileLoader.cpp:160-172 | one pass of the MOPY loop keeps the loop's invariant one record further on, appending the record's texture id (byte 1) and remembering it as the previous id |
| WmoChunks.ReadVector | src/Client/GUI/CWMOMeshFileLoader.cpp:195-206 | one pass of the MOVT or MONR loop is one more swapped read |
| WmoChunks.ReadTexCoords | src/Client/GUI/CWMOMeshFileLoader.cpp:225-237 | the MOTV loop yields what TexCoordChunk specifies |
| M2SceneNode.MaxFrame | src/Client/GUI/CM2MeshSceneNode.cpp:614-633 | the last frame index is the frame count minus one, and -1 for a mesh without frames |
| M2SceneNode.ClampInt | src/Client/GUI/CM2MeshSceneNode.cpp:619-626 | s32_clamp stays at or below the high end, at or above the low end when the range is ordered, and keeps a value already inside |
| M2SceneNode.FrameLoopOrdered | src/Client/GUI/CM2MeshSceneNode.cpp:614-633 | whatever the arguments, the loop start never passes its end nor its end the last frame, and the start is at least 0 when there is a frame |
| M2SceneNode.FrameLoopKeeps | src/Client/GUI/CM2MeshSceneNode.cpp:614-633 | arguments already inside [0, last frame] are kept, swapped when they come in reverse order |
| M2SceneNode.Clamp | src/Client/GUI/CM2MeshSceneNode.cpp:177-183 | clamp stays at or below the high end, at or above the low end when the range is ordered, and keeps a value already inside |
| M2SceneNode.FmodRange | src/Client/GUI/CM2MeshSceneNode.cpp:209-226 | fmod of a non-negative number by a positive one lies in [0, y) |
| M2SceneNode.Advanced | src/Client/GUI/CM2MeshSceneNode.cpp:212-212 | the frame after timeMs grows with a positive speed and shrinks with a negative one |
| M2SceneNode.WrapsForward | src/Client/GUI/CM2MeshSceneNode.cpp:214-218 | playing forward, a frame past the end wraps into [start, end) |
| M2SceneNode.WrapsBackward | src/Client/GUI/CM2MeshSceneNode.cpp:219-224 | playing backward, a frame before the start wraps into (start, end] |
| M2SceneNode.NextFrameInLoop | src/Client/GUI/CM2MeshSceneNode.cpp:193-251 | a frame inside the loop stays inside it, whatever the speed, the looping mode and the elapsed time |
| M2SceneNode.NonLoopingEnds | src/Client/GUI/CM2MeshSceneNode.cpp:227-250 | without looping the animation ends exactly when the frame would pass the end going forward or the start going backward, and then rests on that end |
| M2SceneNode.NextBlend | src/Client/GUI/CM2MeshSceneNode.cpp:195-203 | the transition blend stays at most 1 while a transition runs, and a blend past 1 resets the transition |
| M2SceneNode.IndexOf | src/Client/GUI/CM2MeshSceneNode.cpp:795-800 | the index found holds the first occurrence of x, or is \|s\| when x does not occur |
| M2SceneNode.IndexOfFirst | src/Client/GUI/CM2MeshSceneNode.cpp:795-800 | IndexOf gives i exactly when s[i] is x and no x comes before it |
| M2SceneNode.RemoveFirst | src/Client/GUI/CM2MeshSceneNode.cpp:783-806 | removing a child takes out exactly one occurrence when there is one, and changes nothing otherwise |
| M2SceneNode.FindJointChild | src/Client/GUI/CM2MeshSceneNode.cpp:795-800 | the joint search loop returns IndexOf of the child |
| M2SceneNode.CountPasses | src/Client/GUI/CM2MeshSceneNode.cpp:270-282 | the counting loop finds a solid material exactly when one is not transparent, and a transparent one exactly when one is |
| M2SceneNode.EndCallback.Grab | src/Client/GUI/CM2MeshSceneNode.cpp:883-884 | grab raises the callback's reference count by one |
| M2SceneNode.EndCallback.Drop | src/Client/GUI/CM2MeshSceneNode.cpp:878-879 | drop lowers the callback's reference count by one |
| M2SceneNode.CM2MeshSceneNode.constructor | src/Client/GUI/CM2MeshSceneNode.cpp:131-152 | a new node plays 25 frames per second, looping, without a callback; with a mesh it copies its materials and loops over all its frames, without one the loop is [0, 0] |
| M2SceneNode.CM2MeshSceneNode.BeginTransition | src/Client/GUI/CM2MeshSceneNode.cpp:1213-1235 | with joints in use a transition time restarts the blend at 0 and sets the speed to 1/time; without joints nothing changes |
| M2SceneNode.CM2MeshSceneNode.SetCurrentFrame | src/Client/GUI/CM2MeshSceneNode.cpp:177-183 | the current frame is the requested one clamped into the loop, and exactly the requested one when it lies inside; with joints in use the transition restarts (blend 0, and the rate 1/TransitionTime when a transition time is set), otherwise the transition state is unchanged |
| M2SceneNode.CM2MeshSceneNode.SetFrameLoop | src/Client/GUI/CM2MeshSceneNode.cpp:614-633 | the loop is FrameLoop's ordered, clamped pair, the current frame moves to its end when playing backward and to its start otherwise, and with joints in use the transition restarts as setCurrentFrame restarts it |
| M2SceneNode.CM2MeshSceneNode.SetAnimationSpeed | src/Client/GUI/CM2MeshSceneNode.cpp:637-646 | the speed is stored per millisecond and getAnimationSpeed gives back the frames per second set |
| M2SceneNode.CM2MeshSceneNode.AdvanceBlend | src/Client/GUI/CM2MeshSceneNode.cpp:195-203 | the transition state advances as NextBlend specifies |
| M2SceneNode.CM2MeshSceneNode.AdvanceLooped | src/Client/GUI/CM2MeshSceneNode.cpp:209-226 | in looping mode the frame is the advanced frame wrapped into the loop |
| M2SceneNode.CM2MeshSceneNode.AdvanceOnce | src/Client/GUI/CM2MeshSceneNode.cpp:227-250 | without looping the frame is clamped to the loop's end, and the end callback is called exactly when the animation ended and one is set |
| M2SceneNode.CM2MeshSceneNode.BuildFrameNr | src/Client/GUI/CM2MeshSceneNode.cpp:193-251 | buildFrameNr advances the blend and the frame as NextBlend and NextFrame specify, keeps the frame inside the loop, and calls back exactly when a non-looping animation ends |
| M2SceneNode.CM2MeshSceneNode.SetM2Animation | src/Client/GUI/CM2MeshSceneNode.cpp:810-825 | setM2Animation succeeds exactly on an M2 mesh whose loop for the id has neither end at -1, and then sets that loop, moves the current frame to the loop's end when playing backward and to its start otherwise, and with joints in use restarts the transition; otherwise it changes nothing |
| M2SceneNode.CM2MeshSceneNode.SetAnimationEndCallback | src/Client/GUI/CM2MeshSceneNode.cpp:873-885 | setting the same callback changes no count; a new one is grabbed and the old one dropped |
| M2SceneNode.CM2MeshSceneNode.RemoveChild | src/Client/GUI/CM2MeshSceneNode.cpp:783-806 | removeChild releases a matching shadow, removes the child when it is one, and then clears the first joint slot that holds it |
| M2SceneNode.CM2MeshSceneNode.OnRegisterSceneNode | src/Client/GUI/CM2MeshSceneNode.cpp:254-294 | a visible node registers for the solid pass exactly when a material is solid and for the transparent pass exactly when one is transparent; an invisible one registers for neither |
| M2SceneNode.CM2MeshSceneNode.BuffersToDraw | src/Client/GUI/CM2MeshSceneNode.cpp:419-446 | without a mesh nothing is drawn; with one the draw is defined exactly when every buffer has its material and geoset flag, and it draws in increasing order exactly the buffers of the pass that are shown |
| MemoryDataHolder.U16 | src/shared/MemoryDataHolder.cpp:68-77 | the (uint16) cast gives a value below 65536 and keeps one already below |
| MemoryDataHolder.TileTailInjective | src/shared/MemoryDataHolder.cpp:68-70 | two tile name tails are equal exactly when the truncated coordinates are |
| MemoryDataHolder.NoSeparatorInDigits | src/shared/MemoryDataHolder.cpp:68-70 | a %u rendering never holds the '_' separator |
| MemoryDataHolder.MapFilenamesDiffer | src/shared/MemoryDataHolder.cpp:65-71 | two tile names are equal exactly when the truncated coordinates are, and locally also the truncated map ids |
| MemoryDataHolder.WdtFilenamesDiffer | src/shared/MemoryDataHolder.cpp:72-78 | two local WDT names are equal exactly when the truncated map ids are |
| MemoryDataHolder.WdtIsNoTile | src/shared/MemoryDataHolder.cpp:65-78 | a WDT name ends in .wdt and a tile name in .adt, so no WDT name is a tile name |
| MemoryDataHolder.MdxBecomesM2 | src/shared/MemoryDataHolder.cpp:89-92 | a name ending in .mdx becomes the same name ending in .m2 |
| MemoryDataHolder.ModelNameChanges | src/shared/MemoryDataHolder.cpp:89-92 | the model name is rewritten exactly when .mdx occurs in it, and then loses one character |
| MemoryDataHolder.ModelNameInnerMdx | src/shared/MemoryDataHolder.cpp:89-92 | .mdx inside a name still replaces the name's last three characters |
| MemoryDataHolder.ModelFilenameShape | src/shared/MemoryDataHolder.cpp:89-102 | an MPQ model name is the rewritten name, a local one the rewritten name under ./data/model/ |
| MemoryDataHolder.WmoFilenameShape | src/shared/MemoryDataHolder.cpp:103-112 | an MPQ WMO name is the name itself, a local one the name under ./data/wmos/, since the normalised temporary is discarded |
| MemoryDataHolder.WmoFilenamesDiffer | src/shared/MemoryDataHolder.cpp:103-112 | two NUL-free WMO names give the same file name exactly when they are equal |
| MemoryDataHolder.TextureFilenameShape | src/shared/MemoryDataHolder.cpp:79-87 | an MPQ texture name is the name itself, a local one the name under ./data/textures/; with its NUL it overflows a 1000-byte buffer from 1000 bytes on from the MPQ and from 984 bytes on locally |
| MemoryDataHolder.CountAfterGet | src/shared/MemoryDataHolder.cpp:277-291 | GetFile's count map gains the name and keeps every other key |
| MemoryDataHolder.GetCounts | src/shared/MemoryDataHolder.cpp:277-291 | GetFile changes only its own name's count: a new name starts at 1 when counted and 0 otherwise, a known one grows by one only when counted, and every count stays a uint32 |
| MemoryDataHolder.BackgroundNeverCounts | src/shared/MemoryDataHolder.cpp:356-359 | a background load never raises a count, and leaves 0 on a new name |
| MemoryDataHolder.CountAfterDelete | src/shared/MemoryDataHolder.cpp:362-394 | Delete's count map never gains a key |
| MemoryDataHolder.DeleteCounts | src/shared/MemoryDataHolder.cpp:362-394 | Delete lowers only its own name's count and forgets the name exactly when that count was at most one |
| MemoryDataHolder.DeleteUndoesGet | src/shared/MemoryDataHolder.cpp:277-394 | a counted GetFile then Delete gives the counts back except that a name at zero is forgotten, and a background load then Delete is Delete alone |
| MemoryDataHolder.DataHolder.constructor | src/shared/MemoryDataHolder.cpp:16-22 | a new holder stores nothing, runs no loader, counts nothing, uses threads and reads local files |
| MemoryDataHolder.DataHolder.SetThreadCount | src/shared/MemoryDataHolder.cpp:41-56 | the holder is single-threaded exactly when the thread count is 0 |
| MemoryDataHolder.DataHolder.SetUseMpq | src/shared/MemoryDataHolder.cpp:58-63 | after SetUseMPQ files come from the MPQ archives |
| MemoryDataHolder.DataHolder.GetFile | src/shared/MemoryDataHolder.cpp:270-347 | GetFile counts as CountAfterGet; a stored file is returned with OK and ALREADY_EXIST; a running loader gains the caller's callback; a new threaded load starts a loader; a load on the caller's thread stores the file when it reads and answers JUST_LOADED, with OK exactly when the file is stored |
| MemoryDataHolder.DataHolder.Run | src/shared/MemoryDataHolder.cpp:142-222 | a loader stores its file under the requested name on success, unlinks that name either way, and calls back with OK and JUST_LOADED on success and ERROR otherwise (the local branch's `_FixFileName` is taken to keep the name, see Left out) |
| MemoryDataHolder.DataHolder.Finish | src/shared/MemoryDataHolder.cpp:142-222 | a threaded loader finishing calls back every caller it collected, and the file is stored exactly when it was read |
| MemoryDataHolder.DataHolder.BackgroundLoadFile | src/shared/MemoryDataHolder.cpp:356-359 | a background load leaves every count alone (a new name gets 0); a stored file stays, a running loader gains a null callback, a new name starts a loader with a null callback, and with no threads the file is read on the caller's thread and stored exactly when it loads, with no loader left |
| MemoryDataHolder.DataHolder.Delete | src/shared/MemoryDataHolder.cpp:362-394 | Delete counts as CountAfterDelete; it returns false for a name never asked for, true while a count remains, and at zero frees the block and says whether there was one |
| SceneLoading.Insert | src/Client/GUI/SceneLoading.cpp:68-68 | insertion adds exactly x to the list and keeps a sorted list sorted |
| SceneLoading.Sort | src/Client/GUI/SceneLoading.cpp:68-68 | sort keeps the same strings and orders them |
| SceneLoading.Unique | src/Client/GUI/SceneLoading.cpp:69-69 | unique keeps exactly the strings of the list and the first one, and turns a sorted list into a strictly ordered one |
| SceneLoading.SortUnique | src/Client/GUI/SceneLoading.cpp:68-70 | after sort and unique the list holds each gathered name exactly once, in strict order |
| SceneLoading.GatheredFrom | src/Client/GUI/SceneLoading.cpp:49-65 | a path is gathered exactly when one of the tiles visited so far holds it |
| SceneLoading.GatheredIsNear | src/Client/GUI/SceneLoading.cpp:45-66 | the list holds every doodad of the nine near tiles and nothing else |
| SceneLoading.TileNumber | src/Client/GUI/SceneLoading.cpp:49-53 | the tile numbered 3*tiley+tilex sits at offset (tilex-1, tiley-1) |
| SceneLoading.PushDoodads | src/Client/GUI/SceneLoading.cpp:56-62 | the innermost loop appends the tile's doodads in order |
| SceneLoading.GatherTile | src/Client/GUI/SceneLoading.cpp:51-64 | one pass of the middle loop yields the doodads of the tiles visited up to this one |
| SceneLoading.GatherDoodads | src/Client/GUI/SceneLoading.cpp:45-66 | the three nested loops yield the doodads of every near tile |
| SceneLoading.LoadingSkinIsView0 | src/Client/GUI/SceneLoading.cpp:85-87 | the skin read while loading is defined exactly for names of at least three characters and is the model loader's .skin of view 0 |
| SceneLoading.LoadingSkinOfM2 | src/Client/GUI/SceneLoading.cpp:85-87 | the skin of X.m2 is X00.skin |
| SceneLoading.PercentBound | src/Client/GUI/SceneLoading.cpp:93-96 | the percentage never exceeds 100 |
| SceneLoading.SceneLoad.constructor | src/Client/GUI/SceneLoading.cpp:18-72 | a new loading scene holds each gathered name once in strict order, its total is their number, and nothing is loaded yet |
| SceneLoading.SceneLoad.OnUpdate | src/Client/GUI/SceneLoading.cpp:74-118 | from the second update on each update reads the last remaining model and then its skin; loaded is the total minus what remains, percent is loaded*100/total once something is loaded, and the world scene is entered exactly when nothing remains |

## Left out

- Uninitialised memory: a struct the C++ declares without a value and then reads into is taken as zeros. The sub-id and flags of a legacy animation sequence, which the loader never sets, come from the `uninit` parameter instead.
- Floating point: `f32` is modelled as `real`. NaN, infinities, rounding and the float-to-int casts of the loading bar are not modelled. Where the box code starts from ±infinity, an extended real (`Ext`) stands for it.
- `ReadLights`, `ReadCameras` and `ReadUVAnimations` in the M2 loader are never called by `load`, so they are not modelled.
- CM2Mesh.cpp is not part of this model. `getFrameCount`, `getFrameLoop` and `getGeoSetRender` are therefore fields of the scene node's mesh value rather than computed.
- CWMOMeshFileLoader.h is not part of this model. The WMO root header, MOMT record and MOPY record sizes are the format's 64, 64 and 2 bytes; the MOMT fields the loader uses are the format's u32s at offsets 8 (`blendMode`), 12 (`startNameIndex`) and 24 (`endNameIndex`), and the root header's group count is its u32 at offset 4.
- MemoryDataHolder.h and SceneLoading.h are not part of this model. The types and members they declare are inferred from their use in the .cpp files.
- M2 joints: the joint matrices built in `CopyAnimationsToMesh`, and the normalisation of rotation quaternions, are not modelled. The skeleton keeps the keyframe times and values as read.
- M2Skeleton.CopyRotationKeys: `tempQ.normalize()` (CM2MeshFileLoader.cpp:725), which follows `fixQuaternion`, is dropped. A rotation key holds the axis-fixed quaternion as read, not its normalised form, because Irrlicht's `quaternion::normalize` and its floating-point square root are not part of this model.
- M2Mesh.CM2Mesh.constructor: the constructor's body is in CM2Mesh.cpp, which is not part of this model. It is taken to leave every list empty and `SkinID` at 0. The loader sets `SkinID = 0` itself (CM2MeshFileLoader.cpp:1140) before it copies anything into the mesh.
- M2 textures and materials: texture lookup and creation are reduced to the set `available` of texture names that can be found. Material colours and the scene manager's mesh cache are not modelled.
- Mesh manipulation: `flipSurfaces`, `recalculateNormals` and the bounding-box updates are not modelled, neither after the M2 assembly nor in the WMO `createMesh` (CWMOMeshFileLoader.cpp:70-73), since the mesh manipulator is not part of this model.
- The M2 loader's branch for "bob" models, which builds extra child meshes, is not modelled.
- `Group_of_Points::volume` is never called, so it is not modelled.
- `dropDecalsToTheirBackdrops`, `sortRadius` and `InsertOverlays` are called only from code that is commented out, so they are not modelled.
- `sortPointHighLow`, `sortSizeBracketByMode` and `sortModeByBlock` are also called only from commented-out code. They are modelled because they are part of the loader's declared ordering rules.
- M2Ordering.SortPointHighLow: proves only that the buffer map is permuted and keeps its sort points. The exchange test it uses is not an order relation, so no sortedness is claimed.
- MemoryDataHolder threading: the executor, the mutexes and the condition variables are not modelled. A threaded load is the pair `GetFile` (which registers a loader) and `Finish` (the loader's `run`). Callbacks are recorded as the waiters a loader collects, not called.
- MemoryDataHolder file access: `GetFileSize`, the MPQ archives, `NormalizeFilename`, `_PathToFileName` and `_FixFileName` are not modelled. What reading a file yields is the `loaded` parameter.
- `NormalizeFilename` is not among the source files. The model reads it as taking its argument by value and returning the normalised copy. MemoryDataHolder.cpp:99 and :109 pass it a temporary, which standard C++ binds only to a value or const-reference parameter. Every call in the core drops the result: MemoryDataHolder.cpp:85, :99 and :109, and SceneLoading.cpp:86. So no call changes a name. `MakeTextureFilename` is modelled as `TextureFilename`, `MakeModelFilename` as `ModelFilename` and `MakeWMOFilename` as `WmoFilename`, each formatting the name as given.
- MemoryDataHolder.DataHolder.Run: `_FixFileName` (MemoryDataHolder.cpp:183) is taken to return the name unchanged, so the local branch stores the block under, and unlinks, the requested name. If it rewrote a name, the block would be stored and the loader unlinked under the rewritten name, and the loader registered under the requested name would stay behind.
- MemoryDataHolder.DataHolder.GetFile: rests on the same reading of `_FixFileName`. If it rewrote a name, the non-threaded path would answer JUST_LOADED without OK, and the loader entry it leaves would point at the deleted loader, which the next GetFile of that name would use.
- The `sprintf` output buffers of the MemoryDataHolder map, WDT and model name builders have no size in this model, since the buffers their callers pass are not part of it. The loaders' own 1000-byte texture name buffers (CM2MeshFileLoader.cpp:805, CWMOMeshFileLoader.cpp:309) are modelled: see the next two lines.
- M2SubmeshBuild.MaterialFor: a texture name that does not fit the 1000-byte `buf` with its NUL is `Undefined` (`TextureNameBuffer`, `TextureNameOverflowUndefined`). That is the exact bound of the MPQ branch of `MakeTextureFilename`. The loader does not take the cache's MPQ-or-local mode as a parameter. On the local branch a name of 984 to 999 bytes also overflows (`TextureFilenameShape`), and the model does not flag it.
- WmoGroup.SubmeshStep: the same holds for the group assembly's `char buf[1000]` (CWMOMeshFileLoader.cpp:309-310). A name of 1000 bytes or more is `Undefined` (`GroupTextureNameBuffer`, `GroupTextureNameOverflowUndefined`). A local-branch name of 984 to 999 bytes is not flagged.
- WmoGroup.GroupOf: inherits that gap from SubmeshStep. A group whose texture name has 984 to 999 bytes is not undefined in the model, although it overflows on the local branch.
- WmoGroup.AssembleGroup: inherits the same gap through GroupOf.
- WmoGroup.BuildSubmesh: inherits the same gap through SubmeshStep.
- M2Assembly.NearestVertex: `u16 nearestvertex` (CM2MeshFileLoader.cpp:1041) is indeterminate when no vertex is nearer than the starting distance of 10^8, for instance in every submesh without vertices. The C++ then copies that indeterminate value (cpp:1053). The model gives `None` there rather than `Undefined`.
- M2BufferMap.MapUpTo: `meshmap` (CM2MeshFileLoader.cpp:1154) is declared once, outside the loop, and `BufferInfo` gives `SortPoint` no initial value (CM2Mesh.h:160-180). When no sort-point rule fires for entry 0, the indeterminate value is pushed. The model gives `None` there rather than `Undefined`; later entries carry the previous entry's point, as the C++ does.
- M2BufferMap.MapEntry: logging is not modelled. `logdetail(tex.c_str())` (CM2MeshFileLoader.cpp:1192) passes the texture's base name, read from the file, as the format string. A base name holding a `%` that is not part of `%%` makes that call read arguments that were never passed, which C++ leaves undefined. `getFileBasename` is not part of this model, so the entry stays defined for such names.
- SceneLoading: the GUI images, the DBC lookups of the loading screen and the loading bar's geometry are not modelled. `GetNearTile` is the `near` parameter, and the models and skins read are recorded as the list `Requested`.
- SceneLoading.SceneLoad.OnUpdate: the requested skin name is `LoadingSkin` of the model path, with `NormalizeFilename(skinfile)` at SceneLoading.cpp:86 read as having no effect. This follows the by-value reading of `NormalizeFilename` above, under which its result is dropped. If it rewrote its argument in place, the skin name would be normalised before the replace at :87, and this model would not capture that.
- SceneLoading.SceneLoad.OnUpdate: logging is not modelled. The `logdetail` call at SceneLoading.cpp:84 passes the `std::string` itself, not its `c_str()`, to a `%s` conversion through `...`; C++ gives that no defined behaviour, and the model treats the call as having no effect rather than making every update that reads a model `Undefined`.
- SceneLoading.PercentBound: the u32 overflow of `loaded*100` for more than about 42 million doodads is not modelled.
- Scene node: rendering itself (transforms, debug drawing), shadow volumes, MD2/MD3 animation, joint node creation, `PretransitingSave` and the joint transition animation are not modelled. `BuffersToDraw` states which buffers `render` draws in each pass and in what order.

## Findings

| source | as written | input that shows it | evidently intended | confidence | as-written member | corrected member |
|---|---|---|---|---|---|---|
| src/Client/GUI/CM2Mesh.h:357-373 | `Group_of_Points::split` calls `mIndices.erase(i)` without taking its result, and Irrlicht's list `erase` sets the iterator it is given to the end of the list, so the loop stops after the first index it moves | positions (6,0,0) and (7,0,0), both in the box from 0 to 10 on X, split on axis 1 at 5: only index 0 moves and index 1, beyond the split point, stays | every index beyond the split point moves to the new group, and the rest stay | not executed; depends on Irrlicht's list, which is not part of this model | M2Mesh.SplitAsWrittenStopsEarly | M2Mesh.GroupOfPoints.Split |
