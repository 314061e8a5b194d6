# KCL RTTI, modelled in Dafny

This project models the hand-rolled run-time type information of KCL
(`Source/KCL/KCL_RTTI.h`). Each registered type gets a descriptor (`TypeInfo`):
a name followed by a *hierarchy blob* of words. The blob lists the type's id
and the ids of all its ancestors, grouped into blocks. A block stands for the
ids reachable through one base subobject and carries that subobject's pointer
offset. `DynamicCast` either converts statically, or scans the blob of the
object's dynamic type for the target id and moves the pointer by the offset
of the first block that holds it.

The modules follow the header:

- `Blob` (`blob.dfy`) covers the blob format.
  - A blob is a `seq<int>` of words. It is related to a chain of `Block(offset, ids)` by `Encode`/`Decode`, and the two are proved inverse.
  - `FindBlock`/`CastResult` state what a scan of a chain finds.
- `Inheritance` (`inheritance.dfy`) gives the reference meaning.
  - A hierarchy is a list of type declarations. Each has its direct bases in declaration order, each base with its pointer offset, given as an input.
  - `Ancestry` lists every base subobject of a type, with its offset in the most-derived object, in the C++ non-virtual layout's depth-first order.
  - `Upcast` follows a path of direct bases the way `static_cast` does.
- `Builder` (`builder.dfy`) mirrors the template specialisations that build a blob.
  - `FillOne` mirrors `BaseTypeData<Base>` and the `enable_shared_from_this` case.
  - `FillBases` mirrors the variadic `BaseTypeData`.
  - `Assemble`/`TypeData` mirror the two `TypeDataImpl`s.
  - They work on block chains, and their word-level shape is proved.
- `Soundness` (`soundness.dfy`) proves that a built blob, flattened in scan order, is the type's `Ancestry` with every type replaced by its id. The end-to-end cast theorems follow from that.
- `Descriptor` (`descriptor.dfy`) models `TypeInfo`: `GetTypeId`, `operator==`, and `CastTo` as the loop the source runs over the words.
- `Fill` (`fill.dfy`) models the constructors as they run.
  - Each builds a zero-initialised `array<int>` in place: the copy loop of `BaseTypeData<Base>`, the nested `BaseTypeData` members, then `mySize++` and the end marker.
  - Each is proved to produce `TypeData`.
- `Casting` (`dynamic_cast.dfy`) states what `DynamicCast` returns, over the hierarchy alone.
- `Scenarios` (`scenarios.dfy`) works the multiple-inheritance scenario of the tests through the model: subobjects, casts and the built blob.
- `Registry` (`registry.dfy`) models the process-wide state as a class.
  - It holds the id counter and the lazily built static descriptor of each type.
  - `Get` builds a descriptor on the first call: own id first, then each direct base's descriptor in declaration order, building those not built yet.
  - `Built` computes the ids and the counter a call leaves. Only the type and its not yet built ancestors get ids, and the counter rises once per type built.
  - `DynamicCast` runs the full path and is proved equal to the reference meaning.

An object is modelled as its dynamic type plus its most-derived address: this
is the `this` that `KCL_RTTI_DynamicCast` passes to `CastTo`.

Four conditions are stated as preconditions (`Inheritance.WellFormed`) rather than fixed:

- The first base sits at offset 0.
- Every later base has a non-zero (positive) offset, because 0 is the end marker.
- `enable_shared_from_this` can only be the last base.
- A type whose blob carries the stray byte of that base (`Inheritance.CarriesPad`: its last base is `enable_shared_from_this`, or a type that carries it) can itself only be a last base.

Duplicate subobjects from diamonds are kept; the first one in scan order wins.

## Model

| member | source | states |
|---|---|---|
| Blob.Encode | Source/KCL/KCL_RTTI.h:172-177 | the words start with the head size, then the head ids, and end with the 0 marker; `Blob.DecodeEncode` and `Blob.EncodeDecode` prove it inverse to `Decode` |
| Blob.DecodeFrom | Source/KCL/KCL_RTTI.h:172-177 | a chain read from the words starts at the offset it was reached with, and no later block has offset 0 (0 is the end marker) |
| Blob.DecodeEncode | Source/KCL/KCL_RTTI.h:172-177 | the words of a valid chain decode back to that chain |
| Blob.EncodeDecode | Source/KCL/KCL_RTTI.h:172-177 | words that decode are a valid chain and are exactly that chain's encoding |
| Blob.FindBlock | Source/KCL/KCL_RTTI.h:85-108 | a block offset is found if and only if some block holds the id |
| Blob.FindBlockIsFirstMatch | Source/KCL/KCL_RTTI.h:85-108 | the block found is the first match in the flattened (id, offset) list, scanning blocks in order and ids within a block in order |
| Descriptor.GetTypeId | Source/KCL/KCL_RTTI.h:84 | the word after the head size is the first id of the head block |
| Descriptor.CastTo | Source/KCL/KCL_RTTI.h:85-108 | the word-by-word scan returns exactly `CastResult` of the decoded chain: the pointer moved by the first holder's offset, or 0 |
| Descriptor.CastResultFirst | Source/KCL/KCL_RTTI.h:85-108 | the result is `ptr + offset` of the earliest block holding the id, and 0 when no block holds it |
| Descriptor.FindFirstHolder | Source/KCL/KCL_RTTI.h:85-108 | the scan stops at the earliest block holding the id |
| Descriptor.CastNullIffAbsent | Source/KCL/KCL_RTTI.h:85-108 | for a non-null pointer and non-negative offsets, the scan gives 0 exactly when no block holds the id |
| Descriptor.FirstHolder | Source/KCL/KCL_RTTI.h:85-108 | when some block holds the id, an earliest one exists |
| Registry.DescriptorId | Source/KCL/KCL_RTTI.h:84 | a built descriptor reports the id its type was given |
| Descriptor.SameType | Source/KCL/KCL_RTTI.h:110-111 | two descriptors compare equal exactly when their id words are equal, whatever their names; `Registry.SameTypeIff` turns that into type equality |
| Registry.SameTypeIff | Source/KCL/KCL_RTTI.h:110-111 | two registered descriptors compare equal if and only if they are the same type, because ids are distinct |
| Builder.FillOne | Source/KCL/KCL_RTTI.h:183-248 | one base contributes its head ids to the block being filled and its later blocks with their offsets moved by `aOffset`; `enable_shared_from_this` contributes nothing; `Soundness.FillOneFlat` relates it to the base's subobjects |
| Builder.FillBases | Source/KCL/KCL_RTTI.h:189-205 | the head ids are the first base's, and each later base opens at least one block of its own; `Soundness.FillBasesFlat` relates the result to the bases' subobjects |
| Builder.Assemble | Source/KCL/KCL_RTTI.h:251-280 | the chain built for a type has its head block at offset 0, with the type's own id first |
| Builder.TypeData | Source/KCL/KCL_RTTI.h:251-280 | a type's blob has head size at least 1, its own id as second word and 0 as last word |
| Builder.NoBaseData | Source/KCL/KCL_RTTI.h:270-280 | a type without bases gets the blob `[1, id, 0]` |
| Builder.SingleBaseData | Source/KCL/KCL_RTTI.h:254-260 | with one base, the head size is the base's plus one, the own id comes first, and the base's blob follows unchanged |
| Builder.AssembleSingle | Source/KCL/KCL_RTTI.h:211-222 | one base filled with offset 0 copies the base's words unchanged after the derived id |
| Builder.MultiBaseData | Source/KCL/KCL_RTTI.h:189-205 | with several bases: the head comes from the first base; each later base adds its pointer offset, its head size and its words with offsets moved by that offset; one 0 ends the blob |
| Builder.AssembleWords | Source/KCL/KCL_RTTI.h:251-260 | the word-level layout of any built blob with bases: head size, id, first base's piece, later bases' offset/size/piece triples, end marker |
| Builder.FillOneWords | Source/KCL/KCL_RTTI.h:207-248 | one base's fill writes its head ids and then its later blocks, with the head size equal to the base's |
| Builder.FillBasesWords | Source/KCL/KCL_RTTI.h:189-205 | the nested fill of two or more bases writes the first base's piece, then each later base's offset, size and piece |
| Builder.CopyWordwise | Source/KCL/KCL_RTTI.h:224-247 | the copied words are the base's blob without size word and end marker, word for word, with exactly the offset words moved by `aOffset` |
| Builder.BuiltBlobDecodes | Source/KCL/KCL_RTTI.h:172-177 | every built blob follows the documented layout: it decodes back to the chain it was built from |
| Builder.TypeBlocksFrame | Source/KCL/KCL_RTTI.h:301-310 | ids handed out later leave a blob built earlier unchanged |
| Fill.CopyInto | Source/KCL/KCL_RTTI.h:222 | the `memcpy` writes the source words at the destination and nothing else |
| Fill.CopyBlock | Source/KCL/KCL_RTTI.h:226-243 | one pass of the copy loop writes the offset plus `aOffset`, the size, and the ids, and nothing else |
| Fill.CopyNextBlock | Source/KCL/KCL_RTTI.h:226-243 | one pass over a later block writes the blob's words for it, only its offset word moved |
| Fill.BlockWords | Source/KCL/KCL_RTTI.h:172-177 | in a blob the word before each later block is its non-zero offset, and the word after the last block is the 0 end marker |
| Fill.FillFromBase | Source/KCL/KCL_RTTI.h:211-244 | the fill reports the base's head size and writes `CopyWords` (the base's words minus size and end marker, offsets moved by `aOffset`), touching nothing else; copying stops at the base's 0 end marker |
| Fill.PlaceBase | Source/KCL/KCL_RTTI.h:183-187 | a direct base writes its head size and piece; `enable_shared_from_this` writes nothing, not even the head size, which stays 0 |
| Fill.PlaceFirst | Source/KCL/KCL_RTTI.h:195 | the first base is filled with its own pointer offset (0 when it is the only base) right after the type's id, reporting into `mySize` |
| Fill.PlaceNth | Source/KCL/KCL_RTTI.h:198 | a later base is filled with its `myOffset`, reporting its head size into its `mySize` |
| Fill.PlaceLater | Source/KCL/KCL_RTTI.h:197-198 | a later base's `myOffset`, `mySize` and piece are written in that order and nothing else changes |
| Fill.PlaceLaterBases | Source/KCL/KCL_RTTI.h:189-205 | the later bases, in declaration order, write exactly what the nested members hold and leave the rest of the buffer zero |
| Fill.WrittenStep | Source/KCL/KCL_RTTI.h:197-198 | filling one more base appends its offset, size and piece to what is written |
| Fill.WrittenIsSecondary | Source/KCL/KCL_RTTI.h:189-205 | the nested members hold the first base's piece and then the later bases' words |
| Fill.WrittenAll | Source/KCL/KCL_RTTI.h:251-260 | the words of the finished buffer are those of `Assemble` |
| Fill.BuildTypeData | Source/KCL/KCL_RTTI.h:251-280 | both constructors build exactly `Encode(Assemble(id, bases, ...))`: head size one more than the first base's, the id, the bases' words, and the end marker |
| Inheritance.FirstOffset | Source/KCL/KCL_RTTI.h:137-138 | a first subobject of a type exists if and only if the type occurs in the list, and it is one of them |
| Inheritance.UpcastInAncestry | Source/KCL/KCL_RTTI.h:137-138 | every static upcast path lands on a subobject listed in `Ancestry` |
| Inheritance.AncestryHasUpcast | Source/KCL/KCL_RTTI.h:137-138 | every subobject in `Ancestry` is reached by some static upcast path |
| Inheritance.FirstUpcast | Source/KCL/KCL_RTTI.h:137-138 | the subobject `static_cast` picks is reached by a static upcast path |
| Inheritance.AncestryNonNegative | Source/KCL/KCL_RTTI.h:176-177 | with the documented offsets, every subobject sits at a non-negative offset |
| Soundness.Flatten | Source/KCL/KCL_RTTI.h:172-177 | a built blob, flattened in scan order, is the type's `Ancestry` with ids in place of types |
| Soundness.CastSound | Source/KCL/KCL_RTTI.h:85-108 | scanning a built blob for a registered type gives the pointer moved to the first subobject of that type, and 0 when there is none |
| Soundness.CastForeign | Source/KCL/KCL_RTTI.h:85-108 | an id of no registered type gives 0 |
| Soundness.CastToSelf | Source/KCL/KCL_RTTI.h:85-108 | casting to the object's own type gives the pointer back |
| Soundness.CastAncestorOrNull | Source/KCL/KCL_RTTI.h:85-108 | a cast to an ancestor gives an address at or after the object's, and a cast to a non-ancestor gives 0 |
| Casting.CastSpec | Source/KCL/KCL_RTTI.h:131-143 | an upcast lands on a subobject of the target inside the pointer's static type; any other cast of a non-null pointer to a type the object holds lands on such a subobject of the most-derived object |
| Casting.StaticCast | Source/KCL/KCL_RTTI.h:137-138 | `static_cast` keeps null and moves a non-null pointer onto a subobject of the target type |
| Casting.NullToNull | Source/KCL/KCL_RTTI.h:139-142 | a null pointer casts to null |
| Casting.UpcastPath | Source/KCL/KCL_RTTI.h:137-138 | an upcast lands on a subobject of the target reached by walking up direct bases from the static type |
| Casting.DowncastPath | Source/KCL/KCL_RTTI.h:139-140 | a non-upcast of a non-null pointer to a type the object contains lands on such a subobject of the most-derived object, at or after its address |
| Casting.CrossCastAgrees | Source/KCL/KCL_RTTI.h:131-143 | a cast that is not an upcast gives the same result from any subobject as from the most-derived object itself |
| Casting.UnrelatedToNull | Source/KCL/KCL_RTTI.h:139-140 | a non-upcast to a type the object does not contain gives null |
| Casting.DowncastToDynamic | Source/KCL/KCL_RTTI.h:139-140 | casting down to the dynamic type gives the most-derived address |
| Registry.Registry.constructor | Source/KCL/KCL_RTTI.h:152 | the counter starts at 0 and no descriptor exists |
| Registry.Registry.GenerateId | Source/KCL/KCL_RTTI.h:149-154 | the counter is pre-incremented and returned, so ids are 1, 2, 3, ... |
| Registry.Registry.Get | Source/KCL/KCL_RTTI.h:301-310 | the descriptor is built on the first call and returned unchanged afterwards, with nothing else changed; the ids and counter left are exactly `Built` of the old ones (a new type gets the next id, its not yet built ancestors larger ones); ids stay distinct and in `1..counter` |
| Registry.Registry.Create | Source/KCL/KCL_RTTI.h:251-260 | the first build of a type: its id is generated before its bases' descriptors are fetched, its descriptor is its name and built blob, and the ids and counter left are `Built` of the old ones |
| Registry.Registry.FetchBases | Source/KCL/KCL_RTTI.h:213 | every direct base's descriptor is fetched, building it if needed, in declaration order; the ids and counter left are `BuiltBases` of the old ones |
| Registry.Registry.FetchNext | Source/KCL/KCL_RTTI.h:213 | one base's descriptor is fetched, and its blob is what the fill copies; the ids and counter left are `BuiltBase` of the old ones |
| Registry.Registry.Register | Source/KCL/KCL_RTTI.h:255-259 | the blob built from the id and the bases' blobs is recorded as the type's descriptor |
| Registry.Registry.TypeId | Source/KCL/KCL_RTTI.h:125-129 | `GetTypeId<T>()` returns the id the type was given, building its descriptor if needed: a new type gets the next id and the ids and counter left are `Built` of the old ones; for a type already built nothing changes |
| Registry.Registry.DynamicCast | Source/KCL/KCL_RTTI.h:131-143 | the three-way cast, with the virtual call scanning the dynamic type's blob (`KCL_RTTI_DynamicCast`, line 334), equals the reference meaning `CastSpec`; the static and null branches leave the registry untouched, the scanning branch leaves the ids and counter `Built` gives for the target and then for the dynamic type |
| Registry.BuiltGrows | Source/KCL/KCL_RTTI.h:149-154 | a build keeps every id already given and gives `t` one; each new id comes from the counter; only `t` and its ancestors get new ids; the counter rises by exactly the number of types built |
| Registry.BasesGrow | Source/KCL/KCL_RTTI.h:213 | fetching the direct bases keeps every id already given; the types built are ancestors of those bases, below `t`, with ids from the counter; the counter rises by the number of types built |
| Registry.BuiltOnlyBases | Source/KCL/KCL_RTTI.h:251-260 | a type that gets an id while `t` is built is a base of `t` in the sense of `std::is_base_of` |
| Inheritance.AncestorsAreBases | Source/KCL/KCL_RTTI.h:137 | a type is among the ancestors gathered base by base exactly when it is a base of `t` in the sense of `std::is_base_of` |
| Inheritance.AncestorsTypes | Source/KCL/KCL_RTTI.h:251-260 | the ancestors gathered through the direct bases are exactly the types of the subobjects in `Ancestry` |
| Scenarios.Multi1AFirstBuild | Source/KCL_Test/KCL_RTTI_Test.cpp:107 | the first `GetTypeInfo<Multi1A>::Get()` of a program gives `Multi1A` id 1, `Base1` id 2 and `Base2` id 3, leaving the counter at 3 |
| Scenarios.Multi1AAncestry | Source/KCL_Test/KCL_RTTI_Test.cpp:107 | a `Multi1A : Base1, Base2` holds itself and `Base1` at offset 0 and `Base2` at 16, in that order |
| Scenarios.Multi1ACasts | Source/KCL_Test/KCL_RTTI_Test.cpp:209-233 | casting a `Multi1A` to `Base1` keeps its address, to `Base2` gives the different address `static_cast` gives, and a `Base1*` into it cross-casts to that `Base2` |
| Scenarios.Multi1ABaseBlocks | Source/KCL/KCL_RTTI.h:172-177 | each base of `Multi1A`, built after it with ids 2 and 3, has a one-block blob holding its id |
| Scenarios.Multi1AFill | Source/KCL/KCL_RTTI.h:183-248 | filling from the bases puts `Base1`'s id in the head block and `Base2`'s block at offset 16 |
| Scenarios.SharedFromThisLast | Source/KCL/KCL_RTTI.h:183-247 | a type deriving from `enable_shared_from_this` is accepted as a last base and rejected as an earlier one |
| Scenarios.Multi1ABlob | Source/KCL/KCL_RTTI.h:172-177 | the blob of `Multi1A`, given id 1, is the words `2, 1, 2, 16, 1, 3, 0` |

## Left out

- Byte layout: packing, word widths, `reinterpret_cast` and `memcpy` byte counts. Every word is an `int`. The one byte that the empty `BaseTypeData<std::enable_shared_from_this<T>>` takes is therefore not modelled.
  - In a blob that carries it, the byte sits just before the end marker, so the misaligned read of the end marker still meets zeros.
  - A base's buffer (line 247) is sized from the base's whole type data, so the byte travels into every blob built from that base.
  - Used as an earlier base, such a type puts the byte before the next base's offset word. The source then reads a shifted offset and size and runs past the blob. `Inheritance.WellFormed` excludes those hierarchies (`Scenarios.SharedFromThisLast`), so the model does not describe what the source does on them.
- Registry.Registry.GenerateId: ignores the wrap-around of the 32-bit counter. The counter is an unbounded `nat`.
- `ComputePointerOffset` (Source/KCL/KCL_RTTI.h:156-162): base offsets are inputs of the hierarchy.
  - `Inheritance.WellFormed` requires that later bases have non-zero offsets.
  - A later base at offset 0, which the empty-base optimisation could give an empty base class, is therefore excluded. `std::enable_shared_from_this` holds a `weak_ptr`, so it is not empty.
- The registration macros are not modelled as text (`KCL_RTTI_REGISTER`, `KCL_RTTI_TYPEINFO`, `KCL_RTTI_IMPL`, and the preprocessor helpers they use). Every class is assumed to use `KCL_RTTI_IMPL`, so the object passes its most-derived address and dynamic type.
- The cv and reference stripping in `GetTypeInfo` and reference casts: these are type-level template machinery.
- The ill-formed upcast to an ambiguous base is not modelled: the compiler would reject it. `StaticCast` picks the first subobject of the target type.
- Descriptor.CastTo requires that the words decode as a blob. Every blob the builder makes does (`Builder.BuiltBlobDecodes`); the source reads arbitrary memory otherwise.
- Fill.FillFromBase takes the base's chain as a ghost argument beside its words and reports the head size through a buffer slot instead of a reference.
- Thread safety of the lazy statics, and the per-translation-unit counter that `static` gives `GenerateId`: the model has one counter and runs single-threaded.
- Virtual inheritance is outside the model. The test program expects the library to handle it (Source/KCL_Test/KCL_RTTI_Test.cpp:116), but every base here is a separate subobject at a fixed offset. Shared virtual-base subobjects are not represented. Neither is `ComputePointerOffset`'s cast through a virtual base on the fake pointer `(Derived*)1`.
- The benchmark and the test program are not modelled.
