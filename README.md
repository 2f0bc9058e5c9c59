# GRRLIB Wavefront OBJ loader — a Dafny model

GRRLIB's `GRRLIB_ReadOBJ` loads a Wavefront OBJ file into a `GRRLIB_Model` in two passes over the file:

- **Pass 1** (`GRRLIB_FirstPass`) counts the vertices, normals, texture coordinates and triangles. It builds the model's linked list of groups, starting with "default". It counts each group's triangles and remembers the material library name. Then it gives each group an index array sized by its count and resets the count. A `v` directive of unknown kind ends the program (`exit(1)`).
- **Allocation** (`GRRLIB_ReadOBJ`): the vertex array and the triangle table are sized from pass 1's totals. The normal and texcoord arrays are allocated only when there are normals or texcoords. Each coordinate array has an unused slot 0, because OBJ indices are 1-based.
- **Pass 2** (`GRRLIB_SecondPass`) reads the file again from the start. It stores each coordinate at its 1-based slot. It triangulates each face as a fan into the triangle table, and appends each new triangle's index to the current group's index array. A `g` directive switches the current group and gives that group the current material.

The project has three modules, one per file:

- `obj_records.dfy` (`ObjRecords`) is the file as the scanner reads it: one `Record` per directive, carrying the values `fscanf` would store. It also holds the triangle record and the fan geometry that both passes share. That covers the four face grammars `v//n`, `v/t/n`, `v/t` and `v`, and the padding of faces with fewer than three references.
- `obj_spec.dfy` (`ObjSpec`) states what each pass computes, as left folds over the records:
  - `Count` is pass 1.
  - `Filled`, `Positions`, `Normals` and `TexCoords` are pass 2.
  - Lemmas relate the two passes.
- `obj_model.dfy` (`ObjModel`) is the loader itself, written imperatively:
  - a `Group` class with an in-place `numtriangles` and index array;
  - a `Model` class whose group list is a `seq<Group>` (head first), with `FindGroup`, `AddGroup`, `FirstPass` and `SecondPass`;
  - every buffer as an `array`;
  - the per-record loops as `while` loops.

  Each method is proved against the functions of `ObjSpec`. `ReadOBJ` runs the whole load and returns `Loaded`, `Exited` (the `exit(1)` path) or `Overflowed`.

The passes disagree about where faces before the first `g` belong:

- Pass 1 counts them into "default", the group it is in when it starts (`GRRLIB_3Dobj.c:265`).
- Pass 2 starts at the head of the group list (`GRRLIB_3Dobj.c:101`), which is the most recently created group.

When a face comes before the first `g` and some `g` has created a new group, pass 2 starts at that new group rather than at "default", so it appends to storage sized for another group's count, and the C code writes past its end. The model makes that write an explicit failure, so `ReadOBJ` returns `Overflowed`. It proves this happens exactly when some group's list outgrows its storage (`ObjSpec.Overflows`), which is the exact condition. `ObjSpec.FaceBeforeGroupOverflows` gives a two-record file that overflows. `ObjSpec.PassesAgree` and `ObjSpec.AlignedFits` prove that files where no face precedes the first `g` (`ObjSpec.Aligned`) always load, and then every group's storage ends exactly full (`ObjModel.Model.LoadedFull`). That condition is sufficient, not necessary: `ObjSpec.FaceBeforeDefaultFits` gives a file with a face before `g default` that still loads, because no `g` created a new group and the head is still "default".

## Model

| member | source | states |
|---|---|---|
| `ObjRecords.Corners` | GRRLIB/GRRLIB/GRRLIB_3Dobj.c:154-236 | A face's first triangle takes its three references' vertex indices. It takes their texcoord indices only in the `v/t/n` and `v/t` grammars, and their normal indices only in `v//n` and `v/t/n`. Every other index keeps the slot's old value. |
| `ObjRecords.Padded` | GRRLIB/GRRLIB/GRRLIB_3Dobj.c:152-164 | A face with fewer than three references reads as if its last reference were repeated up to three, because the failed scans leave the last values in place. Longer faces are unchanged. |
| `ObjRecords.FanSize` | GRRLIB/GRRLIB/GRRLIB_3Dobj.c:310-320 | A face yields at least one triangle: one for its first three references and one more per further reference. |
| `ObjRecords.NextInFanIsFan` | GRRLIB/GRRLIB/GRRLIB_3Dobj.c:167-176 | Building the next triangle from the previous one (first corner kept, previous third corner as second, new reference as third) gives the fan triangle for that reference. |
| `ObjRecords.NextInFan` | GRRLIB/GRRLIB/GRRLIB_3Dobj.c:193-201 | The next fan triangle keeps the previous triangle's first corner, takes its third corner as the second, and the new reference as the third. Texcoord and normal indices follow the same rule only in the grammars that scan them, and otherwise keep the slot's old values. |
| `ObjRecords.FanShape` | GRRLIB/GRRLIB/GRRLIB_3Dobj.c:150-244 | A face of n ≥ 3 references yields n − 2 triangles. Triangle j has corners 0, j+1 and j+2. The grammar decides which index kinds are filled. |
| `ObjSpec.FirstIndex` | GRRLIB/GRRLIB/GRRLIB_3Dobj.c:49-56 | The position of the first group with a name, with no earlier group of that name. |
| `ObjSpec.AddName` | GRRLIB/GRRLIB/GRRLIB_3Dobj.c:64-80 | Find-or-create on the name list: the name is present afterwards. The list grows by one only when the name is new, and then the new name is at the head. |
| `ObjSpec.AddNameMembers` | GRRLIB/GRRLIB/GRRLIB_3Dobj.c:64-80 | Find-or-create adds exactly the given name to the set of names. |
| `ObjSpec.AddNameKeeps` | GRRLIB/GRRLIB/GRRLIB_3Dobj.c:64-80 | Find-or-create keeps names unique and keeps the existing names, in order, at the tail. |
| `ObjSpec.CountPrefix` | GRRLIB/GRRLIB/GRRLIB_3Dobj.c:269-360 | If pass 1 accepts a file, it accepts every prefix of it. |
| `ObjSpec.GroupDirConsistent` | GRRLIB/GRRLIB/GRRLIB_3Dobj.c:301-305 | A `g` directive keeps pass 1's group list well formed. |
| `ObjSpec.FaceConsistent` | GRRLIB/GRRLIB/GRRLIB_3Dobj.c:306-355 | Counting a face into the current group keeps pass 1's group list well formed. |
| `ObjSpec.CountStepConsistent` | GRRLIB/GRRLIB/GRRLIB_3Dobj.c:269-360 | Every directive pass 1 accepts keeps the group list well formed. |
| `ObjSpec.CountConsistent` | GRRLIB/GRRLIB/GRRLIB_3Dobj.c:264-360 | After pass 1 the group list has unique names, holds the current group, and ends with "default". No unlisted group has a count. |
| `ObjSpec.CountMatchesData` | GRRLIB/GRRLIB/GRRLIB_3Dobj.c:362-365 | Pass 1's four totals equal the number of positions, normals, texcoords and triangles pass 2 stores for the same file. |
| `ObjSpec.GroupNamesListed` | GRRLIB/GRRLIB/GRRLIB_3Dobj.c:301-305 | Every group a `g` directive names is in pass 1's group list, so pass 2's `GRRLIB_AddGroup` finds it rather than creating it. |
| `ObjSpec.NoGroupDirOnlyDefault` | GRRLIB/GRRLIB/GRRLIB_3Dobj.c:265 | Without a `g` directive the only group is "default", and it is current. |
| `ObjSpec.TotalBump` | GRRLIB/GRRLIB/GRRLIB_3Dobj.c:315-316 | Adding k to one listed group's count adds k to the sum of the counts. |
| `ObjSpec.CountsSumToTriangles` | GRRLIB/GRRLIB/GRRLIB_3Dobj.c:315-353 | The per-group triangle counts sum to the model's triangle count, since both are bumped together. |
| `ObjSpec.UnlistedUncounted` | GRRLIB/GRRLIB/GRRLIB_3Dobj.c:306-320 | A name not in pass 1's group list has no triangles counted. |
| `ObjSpec.CountFailureSticks` | GRRLIB/GRRLIB/GRRLIB_3Dobj.c:288-289 | Once a prefix has a `v` of unknown kind, the whole file fails pass 1. |
| `ObjSpec.FillPrefix` | GRRLIB/GRRLIB/GRRLIB_3Dobj.c:108-251 | Pass 2 only appends: the coordinates, the triangle table and every group's list for a prefix are prefixes of those for the whole file. |
| `ObjSpec.PassesAgree` | GRRLIB/GRRLIB/GRRLIB_3Dobj.c:97-107 | On files where no face precedes the first `g`, pass 2 starts at the head of the list. Each group's list then has exactly as many entries as pass 1 counted for it. |
| `ObjSpec.FaceBeforeGroupOverflows` | GRRLIB/GRRLIB/GRRLIB_3Dobj.c:101 | A face followed by the directive `g g` passes pass 1 with groups `g` and "default", yet overflows group `g`. Pass 2 appends the face to `g`, the head of the list, whose storage was sized 0. |
| `ObjSpec.FaceBeforeDefaultFits` | GRRLIB/GRRLIB/GRRLIB_3Dobj.c:64-80 | A face followed by `g default` is not aligned, yet it does not overflow. Pass 1's `g default` finds "default" and creates nothing, so "default" stays at the head of the list. Pass 2 therefore starts in the group pass 1 counted the face into. |
| `ObjSpec.AlignedFits` | GRRLIB/GRRLIB/GRRLIB_3Dobj.c:367-373 | On files where no face precedes the first `g`, no group's list outgrows the storage pass 1 allocated for it. |
| `ObjSpec.FillOrdered` | GRRLIB/GRRLIB/GRRLIB_3Dobj.c:165-175 | Every group's list is strictly increasing and indexes only triangles already in the table. |
| `ObjSpec.FillPartitions` | GRRLIB/GRRLIB/GRRLIB_3Dobj.c:150-244 | Every triangle of the table is in some group's list, and in only one group's list. |
| `ObjSpec.FanIn` | GRRLIB/GRRLIB/GRRLIB_3Dobj.c:150-244 | When a face's references are in range, so is every index of every triangle of its fan. Texcoord and normal indices the grammar does not carry stay blank. |
| `ObjSpec.FilledInRange` | GRRLIB/GRRLIB/GRRLIB_3Dobj.c:108-251 | When every face reference names an existing vertex, and where its grammar has them an existing texcoord and normal, every triangle pass 2 writes into the table has its vertex indices in 1..numvertices. Its texcoord and normal indices are in 1..numtexcoords and 1..numnormals, or blank where no grammar wrote them. |
| `ObjSpec.VertexRecordSlot` | GRRLIB/GRRLIB/GRRLIB_3Dobj.c:116-135 | The k-th `v` (`vn`, `vt`) directive's coordinates are the k-th entry of the stored positions (normals, texcoords). |
| `ObjModel.Store3` | GRRLIB/GRRLIB/GRRLIB_3Dobj.c:116-129 | Writing a position or normal at the next 1-based slot keeps the coordinates stored so far and adds it after them. Slot 0 is left as it was. |
| `ObjModel.Store2` | GRRLIB/GRRLIB/GRRLIB_3Dobj.c:130-135 | Writing a texcoord at the next 1-based slot keeps the texcoords stored so far and adds it after them. Slot 0 is left as it was. |
| `ObjModel.Group.constructor` | GRRLIB/GRRLIB/GRRLIB_3Dobj.c:70-74 | A new group has the name, material 0, no triangles and no storage. |
| `ObjModel.Model.constructor` | GRRLIB/GRRLIB/GRRLIB_3Dobj.c:386-402 | A new model has the path name and no material library. Every count is 0, every array is absent and the group list is empty. |
| `ObjModel.Model.FindGroup` | GRRLIB/GRRLIB/GRRLIB_3Dobj.c:45-57 | The walk from the list head returns null exactly when no group has the name. Otherwise it returns the first group with the name. |
| `ObjModel.Model.AddGroup` | GRRLIB/GRRLIB/GRRLIB_3Dobj.c:64-80 | For a listed name, the list is unchanged and the first group of that name is returned. Otherwise a fresh empty group (material 0) is pushed at the head and the group count goes up by one. Names stay unique either way. |
| `ObjModel.Model.CountFace` | GRRLIB/GRRLIB/GRRLIB_3Dobj.c:306-355 | A face adds its fan size to the model's triangle count and to the current group's count, and to no other group. |
| `ObjModel.Model.AllocateStorage` | GRRLIB/GRRLIB/GRRLIB_3Dobj.c:367-373 | Each group gets a fresh array of its own, of exactly its counted size, and its count is reset to 0. |
| `ObjModel.Model.CountRecord` | GRRLIB/GRRLIB/GRRLIB_3Dobj.c:270-359 | One directive of pass 1 fails exactly on a `v` of unknown kind. Otherwise the totals, group list, per-group counts, current group and material library become those of one more step of `Count`. |
| `ObjModel.Model.CountAt` | GRRLIB/GRRLIB/GRRLIB_3Dobj.c:269-360 | One turn of pass 1's loop extends the tally of the directives before it. Or it fails, and then the whole file fails pass 1. |
| `ObjModel.Model.CountAll` | GRRLIB/GRRLIB/GRRLIB_3Dobj.c:269-360 | Pass 1's loop succeeds exactly when `Count` does. The model's state is then `Count`'s tally of the whole file. |
| `ObjModel.Model.FirstPass` | GRRLIB/GRRLIB/GRRLIB_3Dobj.c:254-374 | Pass 1 fails exactly on a `v` of unknown kind. Otherwise the model holds `Count`'s totals and group list, and the last library name if there was one. Each group has fresh, pairwise distinct storage of exactly its count, with count 0 and material 0. |
| `ObjModel.Model.Append` | GRRLIB/GRRLIB/GRRLIB_3Dobj.c:165 | Appending a triangle index to a group's list succeeds exactly when its storage has room. The count then goes up by one and the list is the old list plus the index. Where the storage is full, the C code writes out of bounds instead. |
| `ObjModel.Model.WriteNext` | GRRLIB/GRRLIB/GRRLIB_3Dobj.c:167-176 | The next fan triangle is written at the next table slot, built from the previous triangle. The earlier fan triangles stay. |
| `ObjModel.Model.StoreNext` | GRRLIB/GRRLIB/GRRLIB_3Dobj.c:167-176 | One turn of a face's fan loop writes the next triangle and appends its index to the group's list. It fails exactly when the group's storage is full. |
| `ObjModel.Model.StoreFace` | GRRLIB/GRRLIB/GRRLIB_3Dobj.c:150-245 | A face's whole fan is written at the table's next slots, and their indices are appended to the current group's list. It fails exactly when the group's storage cannot take the fan. |
| `ObjModel.Model.StoreFaceListed` | GRRLIB/GRRLIB/GRRLIB_3Dobj.c:150-245 | A face's fan is written at the table's next slots, and its indices are appended to the list of the current group, whose storage fails exactly when it cannot take them. Every other group's list stays as it was. |
| `ObjModel.Model.FillFace` | GRRLIB/GRRLIB/GRRLIB_3Dobj.c:150-245 | A face extends the stored table and the current group's list to those of `Filled` with one more record. It fails exactly when the group's storage overflows. |
| `ObjModel.Model.FillVertex` | GRRLIB/GRRLIB/GRRLIB_3Dobj.c:116-122 | A `v` directive stores its position at the next slot. The stored positions become those of one more record. |
| `ObjModel.Model.FillNormal` | GRRLIB/GRRLIB/GRRLIB_3Dobj.c:123-129 | A `vn` directive stores its normal at the next slot. The stored normals become those of one more record. |
| `ObjModel.Model.FillTexCoord` | GRRLIB/GRRLIB/GRRLIB_3Dobj.c:130-135 | A `vt` directive stores its texcoord at the next slot. The stored texcoords become those of one more record. |
| `ObjModel.Model.LookupGroup` | GRRLIB/GRRLIB/GRRLIB_3Dobj.c:147 | Pass 2's `GRRLIB_AddGroup` on a name pass 1 listed returns the group of that name and changes no list. |
| `ObjModel.Model.SwitchGroup` | GRRLIB/GRRLIB/GRRLIB_3Dobj.c:145-147 | A `g` directive makes the named group current and stores nothing. |
| `ObjModel.Model.Paint` | GRRLIB/GRRLIB/GRRLIB_3Dobj.c:148 | The named group gets the current material. Every other group keeps its material. |
| `ObjModel.Model.FillGroup` | GRRLIB/GRRLIB/GRRLIB_3Dobj.c:143-149 | A `g` directive switches to the named group and gives it the current material. Every group named so far has that material, and the others keep theirs. |
| `ObjModel.Model.FillCoords` | GRRLIB/GRRLIB/GRRLIB_3Dobj.c:108-142 | Every directive other than `g` and `f` (`v`, `vn`, `vt`, comments, `usemtl`, others) advances pass 2's results by one record. |
| `ObjModel.Model.FillRecord` | GRRLIB/GRRLIB/GRRLIB_3Dobj.c:108-251 | One directive of pass 2 fails only on a face that overflows the current group's storage. Otherwise the stored data becomes that of one more record, and the materials follow the `g` directives. |
| `ObjModel.Model.FillAt` | GRRLIB/GRRLIB/GRRLIB_3Dobj.c:108-251 | One turn of pass 2's loop extends the results of the directives before it. When it fails, some group's list over the whole file is larger than that group's storage. |
| `ObjModel.Model.FillAll` | GRRLIB/GRRLIB/GRRLIB_3Dobj.c:105-251 | Pass 2's loop either stores the results of the whole file, or fails because some group's list over the file outgrows its storage. |
| `ObjModel.Model.AllocateArrays` | GRRLIB/GRRLIB/GRRLIB_3Dobj.c:410-418 | The vertex array has 3·(n+1) values and the triangle table one blank slot per triangle. The normal array (3·(n+1)) and texcoord array (2·(n+1)) exist exactly when there are any. All arrays are fresh and distinct. |
| `ObjModel.Model.SecondPass` | GRRLIB/GRRLIB/GRRLIB_3Dobj.c:83-252 | Pass 2 succeeds exactly when every group's list over the file, from the list head, fits its storage. It then leaves every coordinate at its 1-based slot, and the table and every group's list equal to `Filled`. Each group named by a `g` has material 0, and the others keep theirs. Slot 0 of the vertex, normal and texcoord arrays is never written. |
| `ObjModel.Model.PassLoads` | GRRLIB/GRRLIB/GRRLIB_3Dobj.c:410-422 | On storage sized by pass 1, pass 2's success is the same as the file not overflowing (`Overflows`). Success leaves the model loaded from the file (`LoadedFrom`): the group count is the number of groups, the names are pass 1's, and each group's storage keeps exactly the size pass 1 counted for it. The coordinate arrays and the table keep the sizes they were allocated with. |
| `ObjModel.Model.Prepare` | GRRLIB/GRRLIB/GRRLIB_3Dobj.c:410-420 | After pass 1 and the allocations, the model is in the state pass 2 starts from: unique groups with empty storage, the allocated sizes: 3·(n+1) values for the n positions, and likewise for the normals, 2·(n+1) for the texcoords, and one table slot per triangle. The table is blank. The normal and texcoord arrays exist exactly when there are any. |
| `ObjModel.Model.Fill` | GRRLIB/GRRLIB/GRRLIB_3Dobj.c:422 | Pass 2 on the prepared model fails exactly when the file overflows a group. Otherwise the model is loaded from the file, with the group count, the group names, each group's storage size and every array's allocated size left as they were. |
| `ObjModel.Model.Load` | GRRLIB/GRRLIB/GRRLIB_3Dobj.c:410-422 | The allocations followed by pass 2 fail exactly when the file overflows a group. Otherwise they leave the model loaded from the file. The group count, the group names and each group's storage size are as pass 1 set them. The vertex array holds 3·(n+1) values, the normal array 3·(n+1) and the texcoord array 2·(n+1), and the table has one slot per triangle. |
| `ObjModel.Model.LoadedFull` | GRRLIB/GRRLIB/GRRLIB_3Dobj.c:367-373 | On a model loaded from a file where no face precedes the first `g`, every group's storage is exactly full: its count equals the size pass 1 allocated for it. |
| `ObjModel.Model.LoadedInRange` | GRRLIB/GRRLIB/GRRLIB_3Dobj.c:150-245 | On a model loaded from a file whose face references are in range, every slot of the triangle table has vertex indices in 1..numvertices. Its texcoord and normal indices are in 1..numtexcoords and 1..numnormals unless left blank. |
| `ObjModel.ReadOBJ` | GRRLIB/GRRLIB/GRRLIB_3Dobj.c:376-427 | Loading ends in `Exited` exactly when pass 1 fails, and in `Overflowed` exactly when pass 2 overflows a group. It always loads files where no face precedes the first `g`. A loaded model is new, carries the path name, and holds pass 1's totals, names and library with every array filled as pass 2 describes. The group count matches the group list, and each group's storage has pass 1's size; on files where no face precedes the first `g` that storage is exactly full. Every array has the size allocated from pass 1's totals (3·(n+1), 3·(n+1), 2·(n+1) and one table slot per triangle). There are no facet normals and no materials. When every face reference is in range, every index in the triangle table is in range. |

## Left out

- `GRRLIB_Draw3dObj` and `GRRLIB_DeleteObj` and the rest of the file: rendering and freeing are not part of the loader.
- File I/O: `fopen`, `rewind` and `fclose` are not modelled. The file is a parameter (the record sequence), and both passes read the same records. The `exit(1)` when `fopen` fails is not modelled.
- Tokenising: `fscanf`/`fgets`/`sscanf` over the 128-byte buffer is abstracted into `Record`s. The model does not capture how a line is split into directives, tokens longer than the buffer, lines longer than 127 bytes re-read as directives, or name extraction by `sscanf("%s")` (including a `g` with no name). A face is scanned with the grammar of its first reference; mixing grammars within one face is not represented.
- `ObjModel.Model.FirstPass`: `exit(1)` on a `v` of unknown kind is modelled as a `false` result (and `ReadOBJ`'s `Exited` outcome), not as process termination.
- `ObjModel.Model.StoreFace`: where the C code writes past a group's index storage (undefined behaviour), the model stops and reports failure. The same holds for `StoreFaceListed`, `FillFace`, `FillRecord`, `FillAll`, `SecondPass`, `Fill`, `Load` and `ReadOBJ`'s `Overflowed` outcome. The state left after such a failure is not described.
- `ObjModel.Model.AllocateArrays`: freshly allocated memory holds indeterminate values in C. The model starts every triangle slot as a blank triangle of zero indices, and the texcoord or normal indices a grammar does not write keep that value. Slot 0 of each coordinate array is never written (`SecondPass` states this), and its allocated contents are not described.
- Floating point: coordinates are `real` values (an opaque type in the record module), only copied, never computed on.
- Integer widths: counters and indices are unbounded `nat`, not `u32`. Wrap-around at 2^32 and negative indices read through `%d` into unsigned variables are not modelled.
- Materials: the `usemtl` directive is read and discarded, the material lookup in the source is commented out, and the current material is always 0. `nummaterials` is only initialised, and the material library file is not read.
- `facetnorms` and `position` are only initialised by `GRRLIB_ReadOBJ`. `position` is not a field of the model. `facetnorms` stays null with a count of 0, and `nummaterials` stays 0; `ObjModel.ReadOBJ` states both.
- Index checking: the C code does not check that a face's indices name existing vertices, texcoords or normals. The model states the range invariant (`ObjSpec.RefsInRange`, `ObjModel.Model.LoadedInRange`) only for files whose references are in range, and does not describe out-of-range references.
- Memory exhaustion: every `malloc` and `strdup` is assumed to succeed.
