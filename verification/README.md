# Symbol database of libdwarfparser

libdwarfparser reads the DWARF debugging information of ELF files and builds a database of symbols: types,
functions, variables and members, each known by an internal id.  This project models that database, the
parser that fills it, the two clean-up passes that thin it out, and the type navigation that is done on it
afterwards, and proves what a user of the database relies on.

A parse may cover any number of files, compilation units and DIEs.  References between DIEs are turned into
ids before their targets are seen, DIEs of one name are merged into one symbol, and every further DIE
becomes an alias of it.  The questions answered here are whether an id still means the same symbol at the
end, whether it is the symbol of the DIE that was referred to, whether chains of references end, and what
the clean-ups keep, merge and delete.

## Structure

| file | content |
|---|---|
| Basics, Dwarf | optional values, fixed widths; DIEs, units, files and the order of a parse |
| Traversal, Subtrees | that order described by paths of DIEs, without the traversal; contiguity of subtrees |
| SymbolTable | the database as a value and the effect of every operation on it |
| Symbols, DwarfParser | the classes, updating their fields in place; each method is proved to have the effect that SymbolTable, CleanupSpec or Dwarf describes |
| Ranges | handles stay in range over every run |
| Identifiers | getID and getRevID over any interleaving of calls |
| Invariant, VisitKeeps, Runs, Parses | consistency of the table, kept by every step; lookups, references and creation order over runs and over whole files |
| Creators, Classes | which DIE created the symbol of a DIE, told from the DIEs alone; the class of what a visit returns, and when it is new |
| Registered, Mentions, Numbering | where a found symbol and an alias come from; which ids a run issues, and in which order |
| Stops, ParseStops | exactly when a run or a parse stops |
| Parts, Caches | sizes, null members and cached base types over runs |
| Functions, FunctionParams | what a function object says about its DIEs |
| PartHistories, Births | what arrays, enumerations, variables, structures and members say about theirs |
| References | the types that objects refer to, and when all of them are present |
| CleanupSpec, Sweeping, ArrayCleanup, FunctionCleanup, ArrayLookup | the two clean-up passes and the index of arrays |
| Duplicates, Settled, Liveness | which objects the clean-ups delete, and exactly when nothing that stays refers to one |
| Passes, NameLookups | exactly when another clean-up may follow; a second cleanArrays; exactly when a lookup by name reads a deleted object |
| Links, TypeChains, DieChains | chains of references that end; real types and sizes along them; when they end, told from the DIEs |
| Navigation | following types on the heap, and across a clean-up |
| Instances, InstanceMembers, Containers, Members | array elements, members, container-of |
| ElfSymbols, ElfSymbolChains | the maps of ELF symbols with their underscore suffixes and reverse index |
| Blocks | location blocks: little-endian addresses and LEB128 constants |
| Shortfalls, ArrayShortfalls | inputs on which the code falls short |

A pointer to a symbol is a handle, the position of the object in creation order; handles thus rank objects
by age.  The classes below `Symbol` are one class whose dynamic class is the field `kind`.  The manager
records, in ghost fields, the operations so far and what they returned; `Traced` says that its fields are
what the operations come to.  A run is any sequence of DIE visits, from any number of parsers, interleaved
with the lookups that leave a mark in the tables (getRevID, getAliases, getBaseType, memberByName); the
results over runs assume only that no DIE is visited twice, which `Parses` proves for parses.

## Where the code falls short

Each of these comes with its exact condition and, where one helps, an input.

- Merging by name can close a cycle of references although the references between the DIEs form none
  (`Shortfalls.MergingCanCloseCycle`).  Chains end exactly when the references between creating DIEs form no
  cycle (`DieChains.ChainsEndIffAcyclic`), and lead to older types exactly when those of the creating DIEs do
  (`DieChains.RankedIffRefersBack`).
- A typedef, pointer or const DIE gets no symbol exactly when the index holds a reference type of a class that
  does not cast to its own under its name (`Creators.NoCreatorIff`, `Parses.DieResolves`,
  `Shortfalls.MismatchGetsNoSymbol`).
- A parse stops exactly at an enumerator or subrange whose parent DIE has no symbol, as a subrange type at the top
  of a unit has none, or at an enumerator of an enumeration without DW_AT_const_value
  (`ParseStops.ParseStopsIff`).
- The clean-ups delete objects and leave them registered under their ids, which the search tries before the
  new aliases.  After `cleanArrays` an id finds a deleted array exactly when it found a duplicate before
  (`Duplicates.FindsDeletedArray`).  What follows reads freed memory:
  another `cleanArrays` exactly when an array of the new vector has a deleted element type
  (`Passes.ArraysAfterCleanArraysIff`, `ArrayShortfalls.DeletedArrayIsReferredTo`), `cleanFunctions` exactly when a
  listed function has a deleted type (`Passes.FunctionsAfterCleanArraysIff`), and the same after `cleanFunctions`
  (`Passes.ArraysAfterCleanFunctionsIff`, `Passes.FunctionsAfterCleanFunctionsIff`); following a type exactly when
  its chain passes a duplicate (`Navigation.CleanArraysKeepsChain`, `Navigation.CleanFunctionsKeepsChain`).  No
  reference at all leads to a deleted object exactly when no object that stays referred to a duplicate
  (`Liveness.CleanArraysSettlesIff`, `Liveness.CleanFunctionsSettlesIff`).
- The clean-ups leave deleted objects in the indexes by name, too, and `findBaseTypeByName<T>` casts every entry of
  a name up to the one it returns: it reads a deleted object exactly when one of these was a duplicate
  (`NameLookups.NameReadsDeletedArray`, `NameLookups.NameReadsDeletedFunction`,
  `ArrayShortfalls.NameFindsDeletedArray`).
- A second `cleanArrays` in a row deletes nothing, loses one more array from the vector and enters the others into
  the index by type again (`Passes.SecondCleanArrays`, `Passes.IndexedTwice`).
- `cleanArrays` and `cleanFunctions` never push the first sorted element to the new vector, so one
  survivor is lost from it (`ArrayCleanup.KeptExactly`, `FunctionCleanup.FunctionsConserved`).
- `Function::operator<` ignores the name, `operator==` does not.  Equal functions can survive
  (`Shortfalls.EqualFunctionsSurvive`); they do not exactly when functions of one name and signature are
  contiguous (`FunctionCleanup.AllSurvivorsDifferIff`).
- A base type DIE with the name of a function returns the function object, and its typed formal parameters
  are added to the function's exactly if they come before its second DIE; parameters of the first DIE that come
  after a second one nested in it are lost
  (`FunctionParams.ParamsAreThoseOfFirstDieIff`, `Shortfalls.StrayParameter`).
- A name that is another one followed by underscores gets into that one's chain; chains are what was entered
  exactly when no two names are related so (`ElfSymbolChains.ArrivalsIffIndependent`,
  `ElfSymbolChains.UnderscoredNamesCollide`).
- `changeBaseType` finds the containing structure exactly when it is the first base type of its name, that
  is, when its DIE is the first type DIE of its name (`Instances.ContainerOf`, `Containers.ContainerOfInRun`);
  a typedef of that name visited before makes it fail (`Shortfalls.TypedefHidesStruct`).
- A lookup of an unknown member enters a null pointer that the loops over members dereference later; all
  members are present exactly when no such lookup was made (`Parts.NullMembersIff`, `Members.MembersPresentIff`,
  `Shortfalls.LookupEntersNull`).
- `getContainingSymbol` returns 0 for addresses from the last symbol on (`ElfSymbols.AddressTables.GetContainingSymbol`,
  `Shortfalls.OneSymbolContainsNothing`).
- The size of a pointer is the size of its pointee, since `Pointer` inherits `RefBaseType::getByteSize`
  (`Navigation.GetByteSize`).

## Model

| member | source | states |
|---|---|---|
| Symbols.SymbolManager.GetID | libdwarfparser/symbolmanager.cpp:29-42 | a key that has no id, or the id 0, gets the next number; the pair of tables and the result are those of `Intern` |
| Symbols.SymbolManager.GetRevID | libdwarfparser/symbolmanager.cpp:25-27 | the key of an id; an unknown id enters a default pair, and nothing else changes |
| Identifiers.IdsAreOk | libdwarfparser/symbolmanager.cpp:25-42 | over any interleaving of getID and getRevID, getID numbers exactly the keys asked for, injectively, and getRevID inverts it; default entries belong to ids not issued |
| Identifiers.IdsAreStable | libdwarfparser/symbolmanager.cpp:25-42 | once issued, an id is the same key's after any further calls, and getRevID gives the key back |
| Identifiers.IdsAreDense | libdwarfparser/symbolmanager.cpp:29-42 | the ids issued are 1 to the number of keys |
| Identifiers.RevEntries | libdwarfparser/symbolmanager.cpp:25-27 | getRevID has entries for exactly the ids issued and those it was asked for, the default pair for one that is not issued |
| Symbols.SymbolManager.GetAliases | libdwarfparser/symbolmanager.cpp:45-47 | the reverse list of an id, an empty one being entered if there is none |
| Symbols.SymbolManager.FindSymbolByID | libdwarfparser/symbolmanager.cpp:49-94 | the object under the id or under what it is an alias of; the third search is dead; a failing search enters an empty reverse list (see Left out for getRevID's entry) |
| Runs.FindExact | libdwarfparser/symbolmanager.cpp:49-94 | on a consistent table the search succeeds exactly for symbol ids and aliases, with the object registered or aliased, and the third search never hits |
| Symbols.SymbolManager.AddSymbol | libdwarfparser/symbolmanager.cpp:101-109 | the object is registered under its id; everything else stays |
| Symbols.SymbolManager.AddBaseType | libdwarfparser/symbolmanager.cpp:111-115 | a named type is appended to the entries of its name |
| Symbols.SymbolManager.AddRefBaseType | libdwarfparser/symbolmanager.cpp:117-121 | a named reference type replaces the entry of its name |
| Symbols.SymbolManager.AddFunction | libdwarfparser/symbolmanager.cpp:123-133 | the first function of a name is entered, and every function is listed |
| Symbols.SymbolManager.AddArray | libdwarfparser/symbolmanager.cpp:135-139 | the array is listed |
| Symbols.SymbolManager.AddVariable | libdwarfparser/symbolmanager.cpp:141-145 | a named variable replaces the entry of its name |
| Symbols.SymbolManager.AddAlternativeID | libdwarfparser/symbolmanager.cpp:147-155 | the new id becomes an alias and enters the reverse list |
| Symbols.SymbolManager.AddAlternativeDwarfID | libdwarfparser/symbol.cpp:27-30 | the DIE's id becomes an alias of the object |
| Symbols.SymbolManager.FindBaseTypeByName | libdwarfparser/symbolmanager.h:113-122 | the first entry of the name whose class casts, none if no entry does; none of the entries that it casts may be deleted |
| Symbols.SymbolManager.NewSymbol | libdwarfparser/symbol.cpp:10-22 | a fresh object with the DIE's id, name and size is registered, and indexed if it is a type |
| Symbols.SymbolManager.NewRefType | libdwarfparser/refbasetype.cpp:11-30 | a reference type with the id of its DW_AT_type, indexed, and listed if it is an array |
| Symbols.SymbolManager.NewFunction | libdwarfparser/function.cpp:9-23 | a function with the return type and address of its DIE, listed, its parameters open |
| Symbols.SymbolManager.NewVariable | libdwarfparser/variable.cpp:13-26 | a variable with type and location, indexed by name |
| Symbols.SymbolManager.NewMember | libdwarfparser/structuredmember.cpp:6-32 | a member with type and a 32-bit location |
| Symbols.SymbolManager.AddMember | libdwarfparser/structured.cpp:16-31 | the first member of a name wins; a new one becomes an entry of the structure |
| Symbols.Symbol.AddParam | libdwarfparser/function.cpp:27-43 | a typed parameter is appended while the parameters are open |
| Symbols.Symbol.UpdateFunction | libdwarfparser/function.cpp:45-59 | return type and address are set only while they are zero, and the parameters are closed |
| Symbols.Symbol.UpdateArray | libdwarfparser/array.cpp:35-47 | the type of the index and the length, one more than the upper bound in 64 bits |
| Symbols.Symbol.UpdateVariable | libdwarfparser/variable.cpp:34-40 | the location is set only while it is zero |
| Symbols.Symbol.AddEnum | libdwarfparser/enum.cpp:20-30 | the name is entered under the value cut to 32 bits |
| Symbols.SymbolManager.GetBaseType | libdwarfparser/refbasetype.cpp:34-47 | the cached base type, looked up by the first call only; none where the source asserts: the type is 0, is not found or is no type |
| Symbols.SymbolManager.MemberByName | libdwarfparser/structured.cpp:33-35 | the entry of the name, a null one being entered if there is none |
| Parser.DwarfParser.GetRefTypeInstance | libdwarfparser/dwarfparser.cpp:299-319 | a new object, an alias of the one of that name, or nothing if its class differs |
| Parser.DwarfParser.GetFunctionInstance | libdwarfparser/dwarfparser.cpp:321-333 | a new function, or an update and an alias of the one of that name |
| Parser.DwarfParser.GetVariableInstance | libdwarfparser/dwarfparser.cpp:335-347 | a new variable, or an update and an alias of the one of that name |
| Parser.DwarfParser.GetTypeInstance | libdwarfparser/dwarfparser.cpp:349-362 | a new type, or an alias of the first one of that name and class |
| Parser.DwarfParser.InitSymbolFromDie | libdwarfparser/dwarfparser.cpp:364-482 | the visit of one DIE: the run grows by exactly this visit, or the visit fails an assertion or throws |
| Parser.DwarfParser.GetDieAndSiblings | libdwarfparser/dwarfparser.cpp:150-191 | every DIE of the forest is visited once, in preorder, with its parent's symbol and its depth; it fails exactly where the run of these visits stops; it terminates on the size of the forest |
| Parser.DwarfParser.ReadCUList | libdwarfparser/dwarfparser.cpp:90-148 | the units of a file are visited in order, each at the header offset that the lengths before it add up to |
| Parser.DwarfParser.constructor | libdwarfparser/dwarfparser.cpp:37-60 | every parser takes the next file number |
| Parser.ParseFiles | libdwarfparser/dwarfparser.cpp:74-84 | any number of files, one parser each: the run is that of their visits, or it stops where that run stops; a parse into a new manager succeeds exactly if no DIE of the files stops it |
| Traversal.VisitAt | libdwarfparser/dwarfparser.cpp:150-191 | the DIE at a path is visited by the operation its position says, at its depth, with its parent's visit as parent |
| Traversal.PositionIsMonotone | libdwarfparser/dwarfparser.cpp:150-191 | visits follow document order, so that no DIE is visited twice |
| Traversal.BeforeIsTotal | libdwarfparser/dwarfparser.cpp:150-191 | of two different DIEs of a file one comes before the other in document order |
| Traversal.PathOf | libdwarfparser/dwarfparser.cpp:150-191 | every visit is to some DIE of the forest |
| Traversal.UnitVisitAt | libdwarfparser/dwarfparser.cpp:90-148 | every DIE of a unit is visited while curCUOffset is the offset of that unit's header |
| Traversal.RunKeysWithin | libdwarfparser/dwarfparser.cpp:37-60 | with different offsets within each file, a run over files with fresh numbers visits no key twice |
| Subtrees.RunIsTree | libdwarfparser/dwarfparser.cpp:150-191 | the visits below a DIE are contiguous, and only they have visits of that subtree as parents |
| Ranges.ReplayInRange | libdwarfparser/symbolmanager.h:180-240 | no index, member or cached pointer ever denotes a missing object |
| VisitKeeps.VisitDieKeeps | libdwarfparser/dwarfparser.cpp:364-482 | the visit of a DIE not visited before keeps the invariant, changes no identity, alias or id, adds only its own id, and the DIE resolves to what it returned |
| Runs.StepKeeps | libdwarfparser/dwarfparser.cpp:364-482 | every step of a run, visit or lookup, keeps the invariant of the run and extends the table |
| Runs.RunKeepsTable | libdwarfparser/symbolmanager.cpp:49-155 | after every run each object is registered under its own id, no id is both symbol and alias, aliases point directly at symbols, reverse lists invert the alias map, indexes list exactly their classes, in creation order |
| Runs.ResolutionIsStable | libdwarfparser/symbolmanager.cpp:49-94 | an id that resolves at some point of a run resolves to the same object at its end |
| Runs.ReferenceAgreement | libdwarfparser/dwarfparser.cpp:631-636 | the id stored for the ref4 type of a reference type, a variable or a member resolves to the symbol of the target DIE, forward or backward, with its name and a class it asked for; References has the other types |
| Creators.CreatorIsRight | libdwarfparser/dwarfparser.cpp:299-362 | told from the DIEs alone: the visit of a registering DIE returns the object that its creating DIE created, the first of its name and class, for reference types the last array or else the first of the name; and none exactly if there is no creating DIE |
| Creators.NoCreatorIff | libdwarfparser/dwarfparser.cpp:299-319 | there is none exactly for a typedef, pointer or const DIE whose non-empty name indexes a reference type of a class that does not cast to its own |
| Shortfalls.MismatchGetsNoSymbol | libdwarfparser/dwarfparser.cpp:299-319 | a run of a typedef and a pointer of one name: the second visit returns nothing |
| Classes.ReturnedClass | libdwarfparser/dwarfparser.cpp:299-362 | over any run the symbol that a visit returns has the name of its DIE and exactly the class that its tag asks for, but that a pointer may be an array and a base type any type; enumerators, subranges, formal parameters and other DIEs return none |
| Classes.CreatesIff | libdwarfparser/dwarfparser.cpp:299-362 | a registering DIE makes a new symbol exactly if it has no name, or no earlier DIE of its name made one that it would find: any type for a base type, any reference type for a typedef, pointer or const, none for an array, one of its own tag for the others |
| Classes.ReturnsFirst | libdwarfparser/dwarfparser.cpp:337-362 | one that makes none and asks for no reference type returns the symbol of the first such DIE |
| Classes.ReturnsLast | libdwarfparser/dwarfparser.cpp:299-319 | a typedef, pointer or const DIE that makes none returns the symbol of the last such DIE if that has its tag or is an array found for a pointer, and none otherwise |
| Stops.StepFailsIff | libdwarfparser/dwarfparser.cpp:364-474 | an operation fails exactly if it visits an enumerator or subrange whose parent symbol is null or an enumerator of an Enum without DW_AT_const_value, or is a lookup of a base type that fails its assertion |
| Stops.StopsIff | libdwarfparser/dwarfparser.cpp:364-474 | any run stops exactly if after some prefix that runs the next operation fails, and there is just one such |
| Stops.ResolveFailsIff | libdwarfparser/refbasetype.cpp:34-47 | with right caches getBaseType fails exactly on what is no reference type and on ids that denote no type |
| Stops.ClassIsRight | libdwarfparser/dwarfparser.cpp:364-474 | after a run of visits the class of the symbol that each visit returned, members included, is told from the DIEs alone, and so is that it returned none |
| Stops.VisitsStopIff | libdwarfparser/dwarfparser.cpp:421-457 | a run of visits stops exactly if, told from the DIEs alone, it visits an enumerator or subrange whose parent DIE has no symbol or an enumerator without a value whose parent DIE has an enumeration |
| ParseStops.ParseStopsIff | libdwarfparser/dwarfparser.cpp:150-191 | the same for a parse of files, told from the paths of the DIEs |
| Registered.FoundFrom | libdwarfparser/symbolmanager.cpp:49-94 | what the id of a key resolves to was returned by the visit of the DIE of that key: no id resolves by accident |
| Registered.AliasesAreMerged | libdwarfparser/symbolmanager.cpp:45-47 | after any run getAliases of the id of a symbol gives exactly the ids of the DIEs whose visits returned the symbol and did not create it |
| Numbering.RunNumbers | libdwarfparser/symbolmanager.cpp:25-42 | after any run the id tables are those that the calls of getID and getRevID leave that its operations make in turn: the own key of a DIE that creates or joins a symbol, its type where the class stores one, a function without a type taking the type first, index types and the types of accepted parameters; no other key has an id |
| Mentions.IdOrder | libdwarfparser/symbolmanager.cpp:29-42 | over any run: a key that has its id before some operation has a smaller one than a key that no operation before that mentions |
| Mentions.KnownIsMentioned | libdwarfparser/dwarfparser.cpp:364-482 | ids are issued for no other keys than those of visited DIEs and of their types |
| References.TypeAgrees | libdwarfparser/dwarfparser.cpp:631-636 | the type of a reference type, a variable or a member is 0 without DW_AT_type and otherwise resolves to the symbol of the DIE referred to, if that has a creating DIE |
| References.FunctionTypesAgree | libdwarfparser/function.cpp:27-59 | so do the return type, to the first type that a DIE of the function gives, and the type of every parameter |
| References.IndexTypeAgrees | libdwarfparser/array.cpp:35-47 | so does the index type of an array, to the type that its last typed subrange gives |
| Runs.CreationOrder | libdwarfparser/dwarfparser.cpp:299-362 | an object is younger than every symbol returned before its creation |
| Runs.BackwardReferencesRank | libdwarfparser/dwarfparser.cpp:299-319 | one sufficient case of DieChains.RankedIffRefersBack: if every type reference points at a type DIE visited before, every reference type refers to an older type |
| Shortfalls.MergingCanCloseCycle | libdwarfparser/dwarfparser.cpp:299-319 | a run of four DIEs, each of the first three referring to the next, leaves two typedefs that refer to each other; neither chain ends |
| DieChains.ChainsEndIffAcyclic | libdwarfparser/dwarfparser.cpp:299-319 | after any run all chains of reference types end exactly when the references between creating DIEs, each leading to the DIE that created the symbol of its target, form no cycle |
| DieChains.RankedIffRefersBack | libdwarfparser/dwarfparser.cpp:299-319 | every reference type refers to an older type exactly when every creating DIE of one refers to a type that an earlier DIE created |
| TypeChains.RankedChainsEnd | libdwarfparser/instance.cpp:34-43 | where every reference leads to an older type every chain ends |
| TypeChains.RealTypeIff | libdwarfparser/instance.cpp:34-43 | getRealType gives a type exactly if the chain leads to it and it is no reference type, and fails exactly if the chain ends at a reference type whose id denotes no type |
| DieChains.RealTypeFromDies | libdwarfparser/instance.cpp:34-43 | after any run the real type of a type is the object that the DIE created at which the chain of references between creating DIEs leaves typedefs, pointers, constants and arrays |
| Links.AllEndIffAcyclic | libdwarfparser/instance.cpp:34-43 | on any finite graph of references all chains end exactly when none comes back to its start |
| Links.LastIs | libdwarfparser/instance.cpp:34-43 | a chain that ends has a node that it leads to and that refers to none |
| Parses.ParsedTableIsConsistent | libdwarfparser/dwarfparser.cpp:74-84 | the table that a parse of any files, from any file number on, leaves in a new manager satisfies the invariant, and its caches are right |
| Parses.ParsesAppend | libdwarfparser/dwarfparser.cpp:74-84 | parsing some files and then others into one manager is the run of parsing them all |
| Parses.DieResolves | libdwarfparser/dwarfparser.cpp:364-482 | every DIE of a registering class resolves at the end of the parse to the object that its creating DIE created, with its name and class; it has no symbol exactly if it has no creating DIE |
| Parses.ReferenceIsTheTarget | libdwarfparser/dwarfparser.cpp:631-636 | a ref4 type, relative to the DIE's own unit, resolves to the symbol of the DIE at that offset in the file, whenever that one has a creating DIE |
| Parses.ParentSymbol | libdwarfparser/dwarfparser.cpp:150-191 | the parent symbol of a visit is the symbol that the DIE's parent returned |
| Caches.CachesAreCoherent | libdwarfparser/refbasetype.cpp:34-47 | at every point of every run a cached base type is what a fresh lookup of the type id gives |
| Parts.NullMembersIff | libdwarfparser/structured.cpp:33-35 | a step enters a null member exactly if it looks a member up by an unknown name |
| Shortfalls.LookupEntersNull | libdwarfparser/structured.cpp:33-35 | a run of one structure and one lookup, after which the structure holds a null member |
| Parts.ReplaySizes | libdwarfparser/symbol.cpp:10-22 | sizes stay 32-bit numbers over every run |
| Functions.FunctionsAgree | libdwarfparser/function.cpp:9-59 | over any run: return type and address are the first type and the first non-zero address of the function's DIEs, the parameters are the typed formal parameters seen while it had one DIE, and they are closed from the second on |
| FunctionParams.FunctionFromDies | libdwarfparser/function.cpp:9-59 | the same told from the DIEs alone: which DIEs count for a function is decided by which have its creating DIE |
| FunctionParams.OneFunctionPerName | libdwarfparser/dwarfparser.cpp:321-333 | all subprogram DIEs of a non-empty name return the one function object of that name |
| FunctionParams.FunctionReturned | libdwarfparser/dwarfparser.cpp:349-362 | a function object is returned only for subprogram and base type DIEs of its name |
| FunctionParams.ParamsAreThoseOfFirstDieIff | libdwarfparser/function.cpp:27-43 | for the first subprogram DIE of a name, or one without a name: the parameters are exactly its typed formal parameter children, in order, that come before any further DIE of the function, if and only if no base type DIE that returns the function has a typed formal parameter before that; and these are all of its children exactly if no further DIE of the function is nested in it before one of them |
| Shortfalls.StrayParameter | libdwarfparser/dwarfparser.cpp:452-463 | a run after which a function whose only DIE has no children has a parameter |
| Parses.ParsedParamsIff | libdwarfparser/dwarfparser.cpp:452-463 | the same, for a DIE of a parsed file |
| PartHistories.ObjectsAgree | libdwarfparser/dwarfparser.cpp:394-451 | over any run: the length and index type of an array are those its subranges gave last, an enumeration has for every value the name given last, a variable the first location other than zero, a structure for every name the entry it got first |
| Births.ObjectsAreAsBorn | libdwarfparser/symbol.cpp:10-22 | over any run: an object keeps the size that the first visit which returned it gave, 8 for pointers and arrays, and a member its location, whatever is merged later |
| CleanupSpec.ParamsCompare | libdwarfparser/function.cpp:67-70 | the comparison of two parameter lists is zero exactly when all types are the same |
| ArrayCleanup.ArrayLessIsStrictTotal | libdwarfparser/array.cpp:49-57 | operator< of arrays is a strict total order on different ids |
| FunctionCleanup.FunctionLessIsStrictTotal | libdwarfparser/function.cpp:61-74 | operator< of functions is a strict total order on different ids |
| FunctionCleanup.FunctionLessIff | libdwarfparser/function.cpp:61-74 | operator< compares return types, numbers of parameters, the first parameter types that differ, and ids |
| FunctionCleanup.FunctionEqualIsEquivalence | libdwarfparser/function.cpp:76-93 | operator== compares names, return types and parameter types, and is an equivalence |
| Sweeping.SortAscends | libdwarfparser/symbolmanager.cpp:333-339 | the sorted vector ascends strictly |
| Sweeping.AscendingIsUnique | libdwarfparser/symbolmanager.cpp:333-339 | there is one ascending permutation, so that it does not matter which sort is used |
| Symbols.Symbol.UpdateArrayTypes | libdwarfparser/array.cpp:68-74 | the element type becomes the id of the symbol it resolves to |
| Symbols.Symbol.UpdateFunctionTypes | libdwarfparser/function.cpp:95-106 | return type and parameter types become the ids of the symbols they resolve to |
| Sweeping.CanonicalResolvesSame | libdwarfparser/array.cpp:68-74 | updating a type id changes neither what it resolves to nor, a second time, the id |
| Settled.FunctionTypesIdempotent | libdwarfparser/function.cpp:95-106 | updating a function's types twice is updating them once |
| Symbols.SymbolManager.CleanArrays | libdwarfparser/symbolmanager.cpp:325-374 | the pass in place has the effect of `CleanArrays`, deletes what it deletes, and enters the kept arrays into the index by type |
| ArrayCleanup.DeletedExactly | libdwarfparser/symbolmanager.cpp:346-362 | exactly the arrays that are not the one of smallest id of their resolved type and length are deleted |
| ArrayCleanup.DeletedIsAliased | libdwarfparser/symbolmanager.cpp:353-356 | every deleted array is aliased straight to that one |
| ArrayCleanup.KeptExactly | libdwarfparser/symbolmanager.cpp:346-366 | the new vector holds exactly the minimal arrays, but the one that sorts first |
| ArrayCleanup.KeptAscends | libdwarfparser/symbolmanager.cpp:332-366 | the new vector is strictly increasing in type and length |
| ArrayCleanup.ArraysConserved | libdwarfparser/symbolmanager.cpp:346-366 | the first, the kept and the deleted arrays are all there were, with multiplicity |
| ArrayCleanup.CleanArraysKeepsFind | libdwarfparser/symbolmanager.cpp:325-374 | every id resolves after the pass to the object that it resolved to before, deleted or not |
| ArrayCleanup.CleanArraysKeepsTypes | libdwarfparser/array.cpp:68-74 | the pass changes no reference, and its types are canonical afterwards; whether the object referred to is deleted is Duplicates.FindsDeletedArray |
| Duplicates.DeletedArrays | libdwarfparser/symbolmanager.cpp:346-362 | told from the table before: an array is deleted exactly if another listed one of the same resolved type and length has a smaller id |
| Duplicates.FindsDeletedArray | libdwarfparser/symbolmanager.cpp:49-55 | after the pass an id resolves to a deleted array exactly if it resolved to such a duplicate before, since the entry under the id comes before the new alias |
| Duplicates.KeptArrays | libdwarfparser/symbolmanager.cpp:340-366 | told from the table before: the new vector holds exactly the arrays that are no duplicates and come after another one by resolved type, length and id |
| ArrayShortfalls.DeletedArrayIsReferredTo | libdwarfparser/symbolmanager.cpp:353-356 | a run with two arrays of three and an array of the second: the pass deletes the second, keeps the array of two in the vector, still referring to it, and may not run again |
| Symbols.SymbolManager.CleanFunctions | libdwarfparser/symbolmanager.cpp:224-269 | the pass in place has the effect of `CleanFunctions` and deletes what it deletes |
| FunctionCleanup.FunctionsConserved | libdwarfparser/symbolmanager.cpp:240-266 | the first, the kept and the deleted functions are all there were, with multiplicity; the first is the one that sorts before all others |
| FunctionCleanup.DeletedFunctionIsAliased | libdwarfparser/symbolmanager.cpp:253-256 | every deleted function is aliased to an equal one of smaller id that is not deleted, the last such one |
| FunctionCleanup.NeighboursDiffer | libdwarfparser/symbolmanager.cpp:252-262 | no two consecutive survivors are equal |
| FunctionCleanup.AllSurvivorsDifferIff | libdwarfparser/function.cpp:61-93 | no two survivors at all are equal exactly when functions of one name and signature are contiguous in id order |
| Shortfalls.EqualFunctionsSurvive | libdwarfparser/function.cpp:61-93 | a run of three subprogram DIEs after which the pass leaves two equal functions |
| Duplicates.DeletedFunctions | libdwarfparser/symbolmanager.cpp:252-262 | told from the table before: a function is deleted exactly if the listed one just before it by id, among those of the same resolved types, has its name too |
| Duplicates.KeptFunctions | libdwarfparser/symbolmanager.cpp:240-266 | told from the table before: the new list holds exactly the functions that are no duplicates and come after another one by return type, parameters and id |
| Duplicates.KeptFunctionsAscend | libdwarfparser/symbolmanager.cpp:240-266 | the new list ascends by return type, number of parameters, parameter types and id |
| Liveness.RunSettles | libdwarfparser/symbolmanager.cpp:224-374 | after a run whose arrays and functions refer to present types the clean-ups may run: the id maps are right, and nothing has been deleted |
| References.ParseSettles | libdwarfparser/symbolmanager.cpp:224-374 | so they may after a run that visits the target of every DW_AT_type |
| Liveness.CleanArraysSettlesIff | libdwarfparser/symbolmanager.cpp:325-374 | after cleanArrays no object that stays refers to a deleted one exactly when none referred to a duplicate array before |
| Liveness.CleanFunctionsSettlesIff | libdwarfparser/symbolmanager.cpp:224-269 | the same of cleanFunctions and duplicate functions |
| Liveness.SettledIsCleanable | libdwarfparser/symbolmanager.cpp:224-374 | where no reference leads to a deleted object both passes may run |
| Liveness.CachedAlive | libdwarfparser/refbasetype.cpp:34-47 | nor does a cached base type there |
| Passes.ArraysAfterCleanArraysIff | libdwarfparser/symbolmanager.cpp:325-374 | cleanArrays may follow cleanArrays exactly if no array of the new vector has an element type that the first pass deleted |
| Passes.FunctionsAfterCleanArraysIff | libdwarfparser/symbolmanager.cpp:224-374 | cleanFunctions may follow it exactly if no listed function has such a return or parameter type |
| Passes.ArraysAfterCleanFunctionsIff | libdwarfparser/symbolmanager.cpp:224-374 | cleanArrays may follow cleanFunctions exactly if no listed array has an element type that it deleted |
| Passes.FunctionsAfterCleanFunctionsIff | libdwarfparser/symbolmanager.cpp:224-269 | cleanFunctions may follow itself exactly if no function of the new list has a type that the first pass deleted |
| Passes.SecondCleanArrays | libdwarfparser/symbolmanager.cpp:325-374 | a second cleanArrays in a row deletes nothing and changes nothing but the vector, which loses the array that sorts first |
| Passes.IndexedTwice | libdwarfparser/symbolmanager.cpp:367-371 | after it the index by type holds the entries of both vectors, with multiplicity |
| NameLookups.NameReadsDeletedArray | libdwarfparser/symbolmanager.h:113-122 | after cleanArrays a lookup of a type by name returns what it did before, and it casts a deleted object exactly when it did before or one of the entries up to the one it returns was a duplicate array |
| NameLookups.NameReadsDeletedFunction | libdwarfparser/symbolmanager.h:113-122 | the same of cleanFunctions and duplicate functions |
| NameLookups.IndexHoldsDeletedArray | libdwarfparser/symbolmanager.cpp:202-209 | the reference type, or the first type, that an index holds for a name is deleted exactly if it was a duplicate array |
| NameLookups.IndexHoldsDeletedFunction | libdwarfparser/symbolmanager.cpp:220-222 | so is the function, or the first type, if it was a duplicate function |
| ArrayShortfalls.NameFindsDeletedArray | libdwarfparser/symbolmanager.h:113-122 | a run with two arrays of one name, the first of them having the greater id: after cleanArrays the name finds the deleted one |
| Settled.SettledFind | libdwarfparser/symbolmanager.cpp:49-94 | between passes the search still succeeds exactly for symbol ids and aliases, its third part dead; it says nothing of what has been deleted |
| Settled.NamedFunctionsSurvive | libdwarfparser/symbolmanager.cpp:224-269 | right after a run cleanFunctions deletes only functions without a name |
| Symbols.SymbolManager.FindArrayByTypeID | libdwarfparser/symbolmanager.cpp:298-323 | the scan of the index from the id's first entry to its end, then from those of its aliases in increasing order |
| ArrayLookup.LookupAfterCleanArrays | libdwarfparser/symbolmanager.cpp:298-323 | after cleanArrays the lookup returns the one kept array of that type and length whenever there is one, and any array it returns has the length |
| ArrayLookup.FindArrayIff | libdwarfparser/symbolmanager.cpp:298-323 | on any index: the result is the first array of the length at or after one of the type, whatever its own type, or else what the least alias gives from which there is one |
| ArrayLookup.InsertsBehind | libdwarfparser/symbolmanager.cpp:367-371 | the index stays ordered by type, a new entry going behind those of its type, all others keeping their order |
| Navigation.GetRealType | libdwarfparser/instance.cpp:34-43 | for every type whose chain ends and meets no deleted object, the result is the type that the chain leads to and that is no reference type, or none exactly if the chain ends at a reference type that denotes no type; only caches change |
| Navigation.GetByteSize | libdwarfparser/refbasetype.cpp:49-54 | for every such type the recursive size terminates, truncated to 32 bits at every array; only caches change |
| TypeChains.ByteSizeIsProduct | libdwarfparser/array.cpp:30-33 | on every chain that ends, the size is the product of the array lengths and the size of the real type modulo 2^32, in spite of the truncations |
| TypeChains.ByteSizeIff | libdwarfparser/structuredmember.cpp:36-42 | on every chain of sizes that ends, of members and arrays of any symbol, too: getByteSize fails exactly if the chain ends at a reference type or an unsized member, which then refers to nothing it could ask; otherwise it is the product of the array lengths and the size at the end, modulo 2^32 |
| Navigation.RunIsNavigable | libdwarfparser/instance.cpp:34-43 | after every run real types and sizes can be computed for every type whose chain ends |
| Navigation.CleanArraysKeepsChain | libdwarfparser/symbolmanager.cpp:325-374 | after cleanArrays a type can still be followed exactly if it could be before and its chain passes no duplicate array; it has the same real type |
| Navigation.CleanArraysKeepsSize | libdwarfparser/symbolmanager.cpp:325-374 | the same of the chain of sizes, and the size is the same |
| Navigation.CleanFunctionsKeepsChain | libdwarfparser/symbolmanager.cpp:224-269 | after cleanFunctions a type can still be followed exactly if it could be before and its chain passes no duplicate function |
| Navigation.CleanFunctionsKeepsSize | libdwarfparser/symbolmanager.cpp:224-269 | the same of the chain of sizes |
| Navigation.CleanArraysIsNavigable | libdwarfparser/symbolmanager.cpp:325-374 | cleanArrays leaves a table on which the lookups may be called, so that they may after any number of passes |
| Navigation.CleanFunctionsIsNavigable | libdwarfparser/symbolmanager.cpp:224-269 | so does cleanFunctions |
| Navigation.SettledChainsAlive | libdwarfparser/refbasetype.cpp:34-54 | on a settled table no chain from an object that is not deleted meets a deleted one |
| Instances.GetArrayElem | libdwarfparser/instance.cpp:156-174 | the element's type and 64-bit address, exactly for arrays of sized elements and elements below a length other than 0; otherwise a failing assertion; only caches change |
| Instances.ArrayElemIs | libdwarfparser/instance.cpp:156-174 | arrayElem succeeds exactly for an array whose type denotes a type of some size other than 0 and for an element below the length, or any element if that is 0; the address is that of the first byte of the element in 64 bits, even where it wraps around |
| Instances.FlexibleArray | libdwarfparser/instance.cpp:156-174 | an array of length 0 has every element, at address + i * n modulo 2^64 |
| Instances.ElementsTile | libdwarfparser/instance.cpp:152-174 | without overflow the elements of any array whose chain ends tile it: every byte is in exactly one, and no other byte in any |
| Instances.NestedElement | libdwarfparser/instance.cpp:156-174 | element j of element i of an array of arrays is at (i * m + j) * s |
| Instances.ContainerOf | libdwarfparser/instance.cpp:67-116 | memberByName to a list_head and changeBaseType back restore type and address modulo 2^64, exactly when the structure is the first base type of its name |
| InstanceMembers.GetMemberByName | libdwarfparser/instance.cpp:85-116 | on the heap, the lookups on the way filling caches: the member at its address, a pointer followed if asked, or a failing assertion |
| InstanceMembers.MemberByNameIff | libdwarfparser/instance.cpp:85-116 | without following, the result is y exactly if the type leads to a structure whose member of the name has the type of y and lies at the address of y modulo 2^64, and neither address is null |
| InstanceMembers.MemberFollowed | libdwarfparser/instance.cpp:101-113 | following changes only members that are pointers or arrays: these give the type they refer to at the address memory holds there, which may be null only if that is expected |
| InstanceMembers.MemberFromDies | libdwarfparser/instance.cpp:85-116 | after any run the type of a member is the symbol of the DIE that the first member DIE of its name in the structure refers to, and its offset is the DW_AT_data_member_location of that DIE |
| InstanceMembers.ChangeType | libdwarfparser/instance.cpp:67-83 | on the heap: the first type of the name, at the address or at that less the location of the member |
| InstanceMembers.ChangeBaseTypeIff | libdwarfparser/instance.cpp:67-83 | on a consistent table changeBaseType gives the oldest type of the name, at the same address or, from an instance of list_head, at that less the location of the named member of that type |
| Containers.ContainerOfInRun | libdwarfparser/instance.cpp:67-116 | after any run, exactly when the structure's DIE is the first type DIE of its name |
| Containers.FirstNamedFromDies | libdwarfparser/symbolmanager.cpp:202-209 | the first base type found by a name is the one that the first type DIE of the name created |
| Containers.FirstMemberCreated | libdwarfparser/structured.cpp:16-31 | the first member DIE of a name in a structure, if nobody looked the name up before, creates the member that the structure holds under it |
| Shortfalls.TypedefHidesStruct | libdwarfparser/instance.cpp:108-116 | a run with a typedef of a structure's name visited before it: the way back from the structure's member fails |
| Instances.FirstNamedIsOldest | libdwarfparser/symbolmanager.cpp:202-209 | in a consistent table the first base type of a name is the oldest one |
| Members.MemberByOffset | libdwarfparser/structured.cpp:44-56 | for any iteration order a member of the greatest location up to the offset, null exactly if there is none |
| Members.MemberNameByOffset | libdwarfparser/structured.cpp:58-65 | a name with exactly that location, or the empty string |
| Members.MemberOffset | libdwarfparser/structured.cpp:67-74 | the location of the member of that name, or the largest 32-bit number |
| Members.OffsetRoundTrip | libdwarfparser/structured.cpp:44-74 | a member alone at its location is found at its own offset |
| Members.MembersPresentIff | libdwarfparser/structured.cpp:16-35 | after any run the members of every structure are objects, each of its name, exactly when every lookup by name found an entry |
| ElfSymbols.AddressTables.AddSymbolAddress | libdwarfparser/symbolmanager.cpp:485-508 | without replacement an address of the chain is not entered again and a new one goes to the chain's end; with it only the base entry changes; the loop terminates for every name |
| ElfSymbols.AddressTables.AddFunctionAddress | libdwarfparser/symbolmanager.cpp:544-553 | the address goes to the end of the chain; the loop terminates for every name |
| ElfSymbolChains.AddedSymbolIs | libdwarfparser/symbolmanager.cpp:485-508 | with replacement the name gets the address, and the result is whether it had another; without, an address that occurs before the first free form of the name changes nothing, another is entered there, and the result is whether the name was known |
| ElfSymbols.ChainMeans | libdwarfparser/symbolmanager.cpp:485-508 | the chain lists the addresses of the name and its suffixed forms, free of gaps, up to the first free one |
| ElfSymbolChains.FunctionEntersFirstFree | libdwarfparser/symbolmanager.cpp:544-553 | one new key is entered, the first free suffix, and no other changes |
| ElfSymbolChains.EnteredRefines | libdwarfparser/symbolmanager.cpp:485-553 | for names none of which is another one followed by underscores the keys are exactly those that the arrivals of their names account for, with their addresses |
| ElfSymbolChains.EnteredChains | libdwarfparser/symbolmanager.cpp:485-553 | the chain of a name is the sequence of its addresses in the order of arrival, different ones for symbols, all for functions |
| ElfSymbolChains.ArrivalsIffIndependent | libdwarfparser/symbolmanager.cpp:485-553 | for a set of names, the chain of each is its sequence of arrivals over all sequences of calls exactly when no name of the set is another one followed by underscores |
| ElfSymbolChains.PlainAreIndependent | libdwarfparser/symbolmanager.cpp:485-508 | names that do not end in an underscore are never related so |
| ElfSymbolChains.AddingAgain | libdwarfparser/symbolmanager.cpp:485-508 | adding a pair again changes nothing |
| ElfSymbolChains.UnderscoredNamesCollide | libdwarfparser/symbolmanager.cpp:485-508 | three calls after which the chain of a name holds the address of another |
| ElfSymbols.AddressTables.UpdateRevMaps | libdwarfparser/symbolmanager.cpp:455-465 | for any iteration order the reverse maps have exactly the addresses, each with one of its names |
| ElfSymbols.AddressTables.AddressOfName | libdwarfparser/symbolmanager.cpp:510-524 | round trip: the name found for the address of a symbol has that address, an address that no symbol has finds the empty name, and a name that no symbol has the address 0 |
| ElfSymbols.AddressTables.NameOfAddress | libdwarfparser/symbolmanager.cpp:510-524 | the other way: the name found for a symbol's address is a symbol of the same address |
| ElfSymbols.AddressTables.IsSymbol | libdwarfparser/symbolmanager.cpp:526-532 | true exactly if some name has the address |
| ElfSymbols.AddressTables.GetContainingSymbol | libdwarfparser/symbolmanager.cpp:534-542 | the greatest address up to the one given, if a larger symbol address exists, else 0 |
| Shortfalls.OneSymbolContainsNothing | libdwarfparser/symbolmanager.cpp:534-542 | with a single symbol an address in it is found in none |
| Blocks.ParseBlock | libdwarfparser/dwarfparser.cpp:543-591 | the little-endian or LEB128 value of the block, zero for other operations, a failing assertion for constants of more than eight bytes |
| Blocks.OrIsSum | libdwarfparser/dwarfparser.cpp:562-567 | below the bits of the other operand an or is a sum |
| Blocks.ConstantRoundTrip | libdwarfparser/dwarfparser.cpp:558-568 | every constant in at most eight LEB128 bytes, padded or not and whatever follows, is decoded to itself |
| Blocks.CutOffConstant | libdwarfparser/dwarfparser.cpp:558-568 | a constant that its block cuts off is the sum of the seven-bit groups there are |
| Blocks.EncodeIsUleb | libdwarfparser/dwarfparser.cpp:558-568 | the encoding of a number in a given number of bytes is a LEB128 byte sequence |
| Blocks.UlebIsEncoded | libdwarfparser/dwarfparser.cpp:558-568 | every LEB128 byte sequence is an encoding of its value in its length |
| Blocks.AddressRoundTrip | libdwarfparser/dwarfparser.cpp:546-557 | every 64-bit address in little-endian bytes is decoded to itself |

## Left out

- Calls into libdwarf: a DIE is a record of the values they return; error exits, exceptions of missing attributes other than DW_AT_const_value, and deallocation are not modelled.
- Attribute forms of DW_AT_type other than ref4, and the address, data and string forms of other attributes: their value is a field of the DIE.
- The fields encoding, bitSize and bitOffset, which are stored and never read by the modelled code.
- Mutexes: every operation is one atomic step.  The clean-ups return from an empty list with their mutex locked, which the model does not show.
- Wrap-around of the counters of ids and of file numbers, which are unbounded here.
- Reads of the memory of a running machine: an abstract function in Instances.MemberByName and InstanceMembers.GetMemberByName; dereference, getValue and getRawValue are not modelled.
- Heap lifetime as such: a deleted object keeps its fields in the model, and the ghost field `deleted` lists it. The passes, findBaseTypeByName, getBaseType, getRealType, getByteSize, arrayElem, memberByName and changeBaseType require that what they read is not deleted; for a handle that a caller passes that is the caller's business.
- Parsing after a clean-up: the runs of a parser, and the lookups that belong to a run, come before the first clean-up.
- std::sort: an insertion sort, whose result is the only ascending permutation (Sweeping.AscendingIsUnique).
- Multimaps: find is taken to yield the first of equal keys in insertion order.
- Inheritance: one class with a kind, instead of the hierarchy below Symbol; a field that a class lacks keeps its default.
- The uninitialised type of a variable or member without DW_AT_type is 0 in the model.
- symbolNameMap, findSymbolByName (which always returns null), removeSymbol, numberOfSymbols, listings and printing, getSymbolAddress, the system map, lookups in Enum, and getFunctionName and isFunction, whose map is built by the same loop as that of ELF symbols.
- Symbols.SymbolManager.FindSymbolByID: the message printed before the failing assertion reads getRevID and so enters a default pair, which the model does not show.
- Symbols.SymbolManager.AddSymbol: does not model the entry in symbolNameMap, a multimap that no modelled code reads.
- Symbols.SymbolManager.NewSymbol: does not model DW_AT_encoding, which is stored and never read, and the entry in symbolNameMap.
- Symbols.SymbolManager.NewMember: does not model bitSize and bitOffset, which are stored and never read.
- Runs.BackwardReferencesRank: one sufficient condition, easy to check on the DIEs; DieChains.RankedIffRefersBack is the exact one.
- Runs.ReferenceAgreement: the types of reference types, variables and members only; References.FunctionTypesAgree and References.IndexTypeAgrees cover the others.
- ArrayCleanup.CleanArraysKeepsFind: says which object an id finds, not whether that is deleted, which Duplicates.FindsDeletedArray does.
- ArrayCleanup.CleanArraysKeepsTypes: the same.
- Settled.SettledFind: speaks of ids only; Liveness.IsSettled and its lemmas speak of deleted objects.
- Symbols.SymbolManager.FindArrayByTypeID: requires that the index holds no dangling handle, which CleanArrays ensures.
- Instance::memberByOffset and memberName, which only combine Members.MemberByOffset and Members.MemberNameByOffset with an addition and a loop of getRealType.
- addSymbolAddress with replacement beyond the change of the base entry: it can make a chain hold an address twice.
- Sharing of one manager by parsers in threads: runs interleave whole visits, not their parts.
