/**
 * The analysed software model as the query service sees it: the package and
 * class indices of FamixModel, the child lists that FamixModuleFinder derives
 * from it, the dependency records held by FamixDependencyFinder, and the DTOs
 * that cross the service boundary.
 */
module Famix {

  datatype Option<T> = None | Some(value: T)

  /** The attributes of a FamixClass entry that the query service reads. */
  datatype FamixClass = FamixClass(sourceFilePath: string, linesOfCode: int, hasInnerClasses: bool)

  /**
   * SoftwareUnitDTO. `kind` is the DTO's `type` field ("package", "class",
   * "interface", "library", ...).
   */
  datatype SoftwareUnit = SoftwareUnit(uniqueName: string, name: string, kind: string, visibility: string)

  /**
   * DependencyDTO between two physical types. `kind` and `subKind` are the
   * DTO's `type` and `subType` fields.
   */
  datatype Dependency = Dependency(
    from: string, to: string, lineNumber: int, kind: string, subKind: string, isIndirect: bool)

  /** AnalysisStatisticsDTO: four whole-model totals, then three counts scoped to a selection. */
  datatype AnalysisStatistics = AnalysisStatistics(
    totalNrOfPackages: int, totalNrOfClasses: int, totalNrOfLinesOfCode: int, totalNrOfDependencies: int,
    selectionNrOfPackages: int, selectionNrOfClasses: int, selectionNrOfLinesOfCode: int)

  /**
   * A snapshot of FamixModel together with what the module finder answers
   * about it. `packages` is the key set of FamixModel.packages (no other
   * attribute of a package is read here). `childNames` answers
   * getChildModulesNamesInModule, the names the two expansions descend into;
   * `childUnits` answers getChildModulesInModule, the DTO list of the
   * children. The two are separate answers and the model does not relate them.
   * `height` is a proof device only: every child name sits strictly lower
   * than its parent, which is how the model states that containment is acyclic.
   */
  datatype FamixModel = FamixModel(
    packages: set<string>,
    classes: map<string, FamixClass>,
    childNames: map<string, set<string>>,
    childUnits: map<string, seq<SoftwareUnit>>,
    ghost height: map<string, nat>)
  {
    ghost function Height(p: string): nat
    {
      if p in height then height[p] else 0
    }

    /** Containment is acyclic: each child is strictly lower than its parent. */
    ghost predicate Valid()
    {
      forall p, c :: p in childNames && c in childNames[p] ==> Height(c) < Height(p)
    }

    /** getChildModulesNamesInModule: names of the direct children, empty when unknown. */
    function ChildNames(p: string): (r: set<string>)
      ensures Valid() ==> forall c :: c in r ==> Height(c) < Height(p)
      ensures p in childNames ==> r == childNames[p]
      ensures p !in childNames ==> r == {}
    {
      if p in childNames then childNames[p] else {}
    }
  }

  const EmptyModel := FamixModel({}, map[], map[], map[], map[])

  /** FamixDependencyFinder: the imported dependencies and the cache built from them. */
  datatype DependencyFinder = DependencyFinder(
    all: seq<Dependency>,
    cache: map<(string, string), seq<Dependency>>)
  {
    /** getDependenciesFromTo: the cached list for the pair, empty when there is none. */
    function DependenciesFromTo(from: string, to: string): (r: seq<Dependency>)
      ensures (from, to) in cache ==> r == cache[(from, to)]
      ensures (from, to) !in cache ==> r == []
    {
      if (from, to) in cache then cache[(from, to)] else []
    }
  }

  const EmptyFinder := DependencyFinder([], map[])
}
