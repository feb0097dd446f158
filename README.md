# FamixQueryServiceImpl in Dafny

A model of the query facade of HUSACCT's analyse component,
`FamixQueryServiceImpl`. The service answers questions about the analysed software model
(FamixModel: its package and class indices) through two collaborators. The module finder
supplies the containment hierarchy. The dependency finder supplies the dependencies between
two physical types.

The model covers:

- the two recursive expansions of a software unit: all types below it, and all packages
  below it;
- the unit-to-unit dependency query. It looks up every pair of expanded types, drops
  duplicates under a string key through a TreeMap, and reports the survivors in key order;
- the analysis statistics, whole-model and scoped to a selected unit;
- the source-file and child-unit lookups;
- clearing the model.

Modules:

- `JavaStrings`: the order of Java's `String.compareTo` (`Less`), and the iteration order of
  a `TreeSet<String>` (`Sorted`), with `AscendingList` computing it. It also holds the decimal
  rendering of `int` and `boolean` used in string concatenation.
- `Famix`: the data model. A `FamixModel` value holds the package names, the class index and
  the module finder's two answers about children: the child names the expansions descend
  into, and the child DTO lists. A ghost height map states that containment is acyclic:
  every child name is strictly lower than its parent. The module also holds
  `DependencyFinder`, `SoftwareUnit`, `Dependency` and `AnalysisStatistics`.
- `Expansion`: the two expansions as recursive set functions, with exact characterisations
  by descent paths. It also holds the source-file and child-unit lookups.
- `Dedup`: the specification side of the dependency query:
  - the de-duplication key;
  - `Grid`, the order in which the three nested loops meet dependencies;
  - `FirstByKey`, the TreeMap that keeps the first dependency met under each key.
- `Statistics`: the lines-of-code sum, and the proof that the visiting order does not change it.
- `QueryService`: the class `FamixQueryService`. Its fields are the model snapshot and the
  dependency finder. Its methods carry the loops of the Java code, each proved against the
  functions above.

An unknown path is one that is neither a package nor a class, and has no children
reported. One might expect such a path to expand to nothing. The code adds the path itself, because
line 125 tests only the package index (`Expansion.PhysicalClassPaths`,
`Expansion.LeafExpandsToItself`).

The de-duplication key concatenates the six fields with no separator, so two different
dependencies can share a key. `Dedup.KeyNotInjective` exhibits such a pair. The query then
reports only the first of the two it meets. So the query's completeness holds up to the key:
every listed dependency has its key reported, not necessarily itself.

## Model

| member | source | states |
|---|---|---|
| Famix.FamixModel.ChildNames | src/husacct/analyse/domain/famix/FamixQueryServiceImpl.java:128 | the child names the module finder reports for a unit, empty for a unit it has no answer for; in a valid model each child is strictly lower than its parent, so the recursive expansions terminate |
| JavaStrings.AscendingList | src/husacct/analyse/domain/famix/FamixQueryServiceImpl.java:118 | iterating a TreeSet yields its elements exactly once each, in strictly ascending String.compareTo order |
| JavaStrings.SortedFacts | src/husacct/analyse/domain/famix/FamixQueryServiceImpl.java:93-94 | the TreeSet iteration order is strictly ascending and has the same elements and size as the set |
| JavaStrings.AscendingIsSorted | src/husacct/analyse/domain/famix/FamixQueryServiceImpl.java:93-94 | the TreeSet iteration order is the only strictly ascending listing of the set |
| JavaStrings.LessMatchesCompareTo | src/husacct/analyse/domain/famix/FamixQueryServiceImpl.java:90-94 | the order used by the TreeMap and the TreeSets is String.compareTo < 0 as the JDK documents it: a is a proper prefix of b, or a has the smaller character at the first index where they differ |
| JavaStrings.LessTotal | src/husacct/analyse/domain/famix/FamixQueryServiceImpl.java:90 | the key order of TreeMap/TreeSet is total |
| JavaStrings.LessTransitive | src/husacct/analyse/domain/famix/FamixQueryServiceImpl.java:90 | the key order of TreeMap/TreeSet is transitive |
| JavaStrings.LessIrreflexive | src/husacct/analyse/domain/famix/FamixQueryServiceImpl.java:90 | no key is less than itself |
| JavaStrings.LessAsymmetric | src/husacct/analyse/domain/famix/FamixQueryServiceImpl.java:90 | two keys are never each less than the other |
| JavaStrings.LeastExists | src/husacct/analyse/domain/famix/FamixQueryServiceImpl.java:93 | every non-empty set of strings has a least element under the compareTo order |
| JavaStrings.SortedUnfold | src/husacct/analyse/domain/famix/FamixQueryServiceImpl.java:93 | a TreeSet visits its least element first and then the rest of the set in its own order |
| JavaStrings.NatToString | src/husacct/analyse/domain/famix/FamixQueryServiceImpl.java:97 | the decimal rendering of a non-negative line number: digits only, denoting exactly n, with no leading zero except for 0 itself |
| JavaStrings.IntToString | src/husacct/analyse/domain/famix/FamixQueryServiceImpl.java:97 | Integer.toString of a line number: a leading minus exactly for a negative value, followed by the digits that denote its magnitude (never a leading zero after the minus) |
| JavaStrings.BoolToString | src/husacct/analyse/domain/famix/FamixQueryServiceImpl.java:97 | Boolean.toString of the isIndirect flag: the rendering ends in "true" exactly when the flag is true |
| Expansion.PhysicalClassPaths | src/husacct/analyse/domain/famix/FamixQueryServiceImpl.java:123-136 | no member of the class expansion is a package, and none lies above the unit; the unit is in its own expansion exactly when it is not a package, even when it is unknown |
| Expansion.PhysicalClassPathsExact | src/husacct/analyse/domain/famix/FamixQueryServiceImpl.java:123-136 | q is in the class expansion of p iff q is not a package and a chain of child links leads from p to q |
| Expansion.PhysicalPackagePaths | src/husacct/analyse/domain/famix/FamixQueryServiceImpl.java:146-162 | the package expansion holds packages only, never the unit itself, only units strictly below it, and every package child of the unit |
| Expansion.PackagePathsAreProperDescendants | src/husacct/analyse/domain/famix/FamixQueryServiceImpl.java:151-159 | every member of the package expansion of p is reached from p by at least one child link |
| Expansion.ProperDescendantPackagesArePackagePaths | src/husacct/analyse/domain/famix/FamixQueryServiceImpl.java:151-159 | every package reached from p by at least one child link is in the package expansion of p |
| Expansion.PhysicalPackagePathsExact | src/husacct/analyse/domain/famix/FamixQueryServiceImpl.java:146-162 | q is in the package expansion of p iff q is a package strictly below p |
| Expansion.LeafExpandsToItself | src/husacct/analyse/domain/famix/FamixQueryServiceImpl.java:124-134 | a non-package unit without children has class expansion {itself} and an empty package expansion, whether or not it is a known class |
| Expansion.SourceFilePathOfClass | src/husacct/analyse/domain/famix/FamixQueryServiceImpl.java:48-54 | the class's sourceFilePath for a known class, "" otherwise |
| Expansion.ChildUnitsOf | src/husacct/analyse/domain/famix/FamixQueryServiceImpl.java:62-73 | the child DTO list the module finder reports for the unit; the result is empty exactly when the finder reports no list or an empty one |
| Dedup.KeyStartsWithEndpoints | src/husacct/analyse/domain/famix/FamixQueryServiceImpl.java:97 | the de-duplication key begins with the from path followed by the to path |
| Dedup.KeyEndsWithFlag | src/husacct/analyse/domain/famix/FamixQueryServiceImpl.java:97 | the last four characters of the key are "true" exactly when the dependency is indirect |
| Dedup.KeySharedFlag | src/husacct/analyse/domain/famix/FamixQueryServiceImpl.java:97-98 | two dependencies filed under the same key agree on isIndirect |
| Dedup.KeyNotInjective | src/husacct/analyse/domain/famix/FamixQueryServiceImpl.java:97 | two different dependencies can share the concatenated key |
| Famix.DependencyFinder.DependenciesFromTo | src/husacct/analyse/domain/famix/FamixQueryServiceImpl.java:95 | the dependency finder's list for a (from, to) pair, empty for a pair it has nothing for |
| Dedup.FirstIndexOfKey | src/husacct/analyse/domain/famix/FamixQueryServiceImpl.java:98-100 | the position of the first dependency with a given key, or the length when none has it |
| Dedup.FirstByKeyKeepsFirst | src/husacct/analyse/domain/famix/FamixQueryServiceImpl.java:93-103 | after the loops, the TreeMap has exactly the keys met, each mapped to the first dependency met with that key |
| Dedup.FirstByKeyComplete | src/husacct/analyse/domain/famix/FamixQueryServiceImpl.java:98-100 | the key of every dependency met is in the TreeMap |
| Dedup.RowMembership | src/husacct/analyse/domain/famix/FamixQueryServiceImpl.java:94-95 | a dependency is met for one from-type iff some to-type's lookup lists it |
| Dedup.GridMembership | src/husacct/analyse/domain/famix/FamixQueryServiceImpl.java:93-95 | a dependency is met by the three loops iff some (from-type, to-type) pair's lookup lists it |
| Dedup.DiscoveredMembership | src/husacct/analyse/domain/famix/FamixQueryServiceImpl.java:91-95 | the query meets a dependency iff the finder lists it for a type below pathFrom and a type below pathTo |
| Statistics.LinesOfCodeOf | src/husacct/analyse/domain/famix/FamixQueryServiceImpl.java:185-190 | names that are not classes add nothing to the sum the loop builds, and non-negative class sizes give a non-negative total |
| Statistics.LinesOfCodeOfConcat | src/husacct/analyse/domain/famix/FamixQueryServiceImpl.java:185-190 | the lines-of-code sum over two consecutive runs of names is the sum of the two sums |
| Statistics.LinesOfCodeOfRemove | src/husacct/analyse/domain/famix/FamixQueryServiceImpl.java:185-190 | removing one name from the visit order removes exactly its own lines from the sum |
| Statistics.LinesOfCodeOfPermutation | src/husacct/analyse/domain/famix/FamixQueryServiceImpl.java:185-190 | two duplicate-free visit orders of the same names give the same sum |
| Statistics.LinesOfCodeInAnyOrder | src/husacct/analyse/domain/famix/FamixQueryServiceImpl.java:183-190 | the lines of code of a class set do not depend on the TreeSet order: any duplicate-free listing gives the same sum |
| Statistics.LinesOfCodeInDisjointUnion | src/husacct/analyse/domain/famix/FamixQueryServiceImpl.java:183-190 | the lines of code of two disjoint sets of types add up |
| Statistics.LinesOfCodeOfDisjointUnits | src/husacct/analyse/domain/famix/FamixQueryServiceImpl.java:128-134 | when no type lies below two different units of a list, the lines of code of all types below them is the sum of their scoped lines of code |
| Statistics.PackageLinesOfCode | src/husacct/analyse/domain/famix/FamixQueryServiceImpl.java:181-190 | a package's scoped lines of code are the sum of its children's scoped lines of code (each child's class expansion), provided no type lies below two different children |
| QueryService.FamixQueryService.constructor | src/husacct/analyse/domain/famix/FamixQueryServiceImpl.java:19-24 | a new service has an empty model and a dependency finder without dependencies |
| QueryService.FamixQueryService.ClearModel | src/husacct/analyse/domain/famix/FamixQueryServiceImpl.java:26-30 | afterwards the model is empty, the finder is a fresh one without dependencies, and the model is valid |
| QueryService.FamixQueryService.AllPhysicalClassPaths | src/husacct/analyse/domain/famix/FamixQueryServiceImpl.java:117-120 | the class expansion as a strictly ascending, duplicate-free list with the same members, none of them a package |
| QueryService.FamixQueryService.AllPhysicalPackagePaths | src/husacct/analyse/domain/famix/FamixQueryServiceImpl.java:140-143 | the package expansion as a strictly ascending, duplicate-free list with the same members, all packages other than the unit |
| QueryService.FamixQueryService.DependenciesFromUnitToUnit | src/husacct/analyse/domain/famix/FamixQueryServiceImpl.java:88-106 | keys strictly ascending, so no key twice; each reported dependency is the first one the loops meet with its key; each is listed for a type below pathFrom and a type below pathTo; every such listed dependency has its key reported |
| QueryService.FamixQueryService.FilterDuplicates | src/husacct/analyse/domain/famix/FamixQueryServiceImpl.java:93-103 | the TreeMap after the three loops equals FirstByKey of the dependencies in the order the loops meet them |
| QueryService.FamixQueryService.FilterRow | src/husacct/analyse/domain/famix/FamixQueryServiceImpl.java:94-102 | one pass of the middle loop extends the TreeMap by the row of one from-type |
| QueryService.FilterLookup | src/husacct/analyse/domain/famix/FamixQueryServiceImpl.java:95-100 | the innermost loop extends the TreeMap by one lookup, putting only absent keys |
| QueryService.ReportedAscending | src/husacct/analyse/domain/famix/FamixQueryServiceImpl.java:104 | the TreeMap's values come out in strictly ascending key order, with no key twice |
| QueryService.ReportedFirst | src/husacct/analyse/domain/famix/FamixQueryServiceImpl.java:98-104 | every value that comes out is the first dependency met under its key |
| QueryService.ReportedSound | src/husacct/analyse/domain/famix/FamixQueryServiceImpl.java:91-104 | every value that comes out is listed by the finder for a pair of the two expansions |
| QueryService.ReportedComplete | src/husacct/analyse/domain/famix/FamixQueryServiceImpl.java:91-104 | every dependency listed for such a pair has its key among the values that come out |
| QueryService.FamixQueryService.GetAnalysisStatistics | src/husacct/analyse/domain/famix/FamixQueryServiceImpl.java:166-210 | the totals are: the package count minus 1 exactly when xLibraries is a package, the class count, the given total lines of code, and the dependency count. For a known package, the scoped counts are the sizes of both expansions and the lines of code of its class expansion. For a known class or interface, packages are 0, the lines of code are its own, and classes are 1 or, with inner classes, the size of its class expansion. With no selection, an unknown unit or any other kind, all scoped counts are 0 |
| QueryService.FamixQueryService.SumLinesOfCode | src/husacct/analyse/domain/famix/FamixQueryServiceImpl.java:185-190 | the loop's total is the sum of linesOfCode over the names that are classes, in visiting order |

## Left out

- The singleton `FamixModel.getInstance()` and the conversions between lists and arrays are not modelled; results are sequences.
- `buildCache`, `importDependencies`, `getSoftwareUnitByUniqueName`, `getSoftwareUnitsInRoot` and `getParentUnitOfSoftwareUnit` are not modelled. They delegate to FamixModuleFinder and FamixDependencyFinder, and FamixModuleFinder and FamixDependencyFinder are not part of this model.
- The dependency finder is a value: the list of all dependencies and the per-pair lookup.
  - `getAllDependencies` is its `all` field, used only for the dependency count.
  - `getDependenciesFromClassToClass` is its lookup `DependenciesFromTo`, with no other logic.
  - How the cache is built from the list is not modelled.
- Expansion.ChildUnitsOf: the module finder's child DTO lists and its child-name sets are two separate answers. FamixModuleFinder is not part of this model, so the model does not promise that the DTOs of a unit's children carry exactly the names the expansions descend into.
- QueryService.FamixQueryService.ClearModel: lines 27-30 clear FamixModel and keep the same module finder. The model assumes that finder then reports no children, because it answers from the cleared FamixModel; its code is not part of this model.
- Java `null` is not modelled, because Dafny strings and values cannot be null. The affected members and the behaviour they do not capture:
  - `Expansion.PhysicalClassPaths`: a null unique name throws NullPointerException, at line 125 when the package index refuses null keys, otherwise at line 126 (`TreeSet.add(null)`).
  - `Expansion.PhysicalPackagePaths`: never adds its own name (line 149 is commented out) and adds only child names taken from a TreeSet, so a null name gets no NullPointerException from an add. What it does with null rests on `packages.containsKey(null)` at line 148 and on the module finder at line 151, and neither is part of this model.
  - `Dedup.Key`: a null `from`, `to`, `type` or `subType` is rendered as the four characters "null" at line 97, so it collides with the literal string "null".
  - `QueryService.FamixQueryService.GetAnalysisStatistics`: a null `type` of the selected unit would throw at line 180.
- `getTotalNumberOfLinesOfCode` is a FamixModel operation and is not part of this model. Its value is a parameter of `GetAnalysisStatistics`.
- QueryService.FamixQueryService.SumLinesOfCode: sums with unbounded integers, not Java's 32-bit `int` wrap-around.
- QueryService.FamixQueryService.GetAnalysisStatistics: a package's lines of code are not the sum over its child packages plus the own lines of its direct classes. They are the sum of the children's class-expansion lines only when no type lies below two children (`Statistics.PackageLinesOfCode`). A direct class with inner classes adds its inner classes too, although its own scoped statistic counts only its own lines: with P → {K}, K → {K.I}, K at 10 lines and K.I at 5, P reports 15 and K reports 10.
- QueryService.FamixQueryService.GetAnalysisStatistics: also sums with unbounded integers; a model whose lines of code exceed 2^31 - 1 in total is not modelled faithfully.
- Expansion.ChildUnitsOf: line 66 calls `size()` before the null test on line 67. A null child list would therefore raise NullPointerException rather than yield an empty array. The module finder is not part of this model, so it is not known whether it ever answers null; the model treats a missing list as empty.
- JavaStrings.Less compares Dafny characters. Java compares UTF-16 code units. The two orders differ only for characters outside the Basic Multilingual Plane.
- Expansion.PhysicalClassPaths: requires an acyclic containment hierarchy. With a cycle the Java recursion at lines 131 and 157 deepens until Java throws StackOverflowError.
- The same requirement applies to Expansion.PhysicalPackagePaths.
