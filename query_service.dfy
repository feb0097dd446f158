/**
 * FamixQueryServiceImpl: the query facade over the analysed model. The model
 * snapshot and the dependency finder are fields that clearModel replaces; the
 * queries read them.
 */
module QueryService {
  import opened JavaStrings
  import opened Famix
  import opened Expansion
  import opened Dedup
  import opened Statistics

  /** The unique name of the package the analysis creates for external libraries. */
  const LibrariesPackage := "xLibraries"

  class FamixQueryService {
    var theModel: FamixModel
    var dependencyFinder: DependencyFinder

    ghost predicate Valid()
      reads this
    {
      theModel.Valid()
    }

    /** A new service starts from a cleared model and a fresh dependency finder. */
    constructor ()
      ensures Valid()
      ensures theModel == EmptyModel && dependencyFinder == EmptyFinder
    {
      theModel := EmptyModel;
      dependencyFinder := EmptyFinder;
    }

    /**
     * clearModel: empties the model's indices, and with them the children the
     * module finder reports, and replaces the dependency finder by a new one
     * that knows no dependencies.
     */
    method ClearModel()
      modifies this
      ensures Valid()
      ensures theModel == EmptyModel && dependencyFinder == EmptyFinder
    {
      theModel := EmptyModel;
      dependencyFinder := EmptyFinder;
    }

    /** getAllPhysicalClassPathsOfSoftwareUnit: the class expansion as a strictly ascending list. */
    method AllPhysicalClassPaths(uniqueName: string) returns (r: seq<string>)
      requires Valid()
      ensures Ascending(r)
      ensures forall q :: q in r <==> q in PhysicalClassPaths(theModel, uniqueName)
      ensures forall q :: q in r ==> q !in theModel.packages
    {
      r := AscendingList(PhysicalClassPaths(theModel, uniqueName));
    }

    /** getAllPhysicalPackagePathsOfSoftwareUnit: the package expansion as a strictly ascending list. */
    method AllPhysicalPackagePaths(uniqueName: string) returns (r: seq<string>)
      requires Valid()
      ensures Ascending(r)
      ensures forall q :: q in r <==> q in PhysicalPackagePaths(theModel, uniqueName)
      ensures forall q :: q in r ==> q in theModel.packages && q != uniqueName
    {
      r := AscendingList(PhysicalPackagePaths(theModel, uniqueName));
    }

    /**
     * getDependenciesFromSoftwareUnitToSoftwareUnit: looks up every pair of a
     * type below pathFrom and a type below pathTo, keeps the first dependency
     * met under each key and returns the kept ones in ascending key order.
     */
    method DependenciesFromUnitToUnit(pathFrom: string, pathTo: string) returns (r: seq<Dependency>)
      requires Valid()
      // ascending key order, so no key is reported twice
      ensures forall i, j :: 0 <= i < j < |r| ==> Less(Key(r[i]), Key(r[j]))
      ensures forall i, j :: 0 <= i < j < |r| ==> Key(r[i]) != Key(r[j])
      // each reported dependency is the first one met with its key
      ensures forall i :: 0 <= i < |r| ==>
                FirstWithKey(Discovered(theModel, dependencyFinder, pathFrom, pathTo), Key, r[i])
      // sound: each reported dependency is listed for a pair of types below the two units
      ensures forall i :: 0 <= i < |r| ==>
                ListedBetween(dependencyFinder, PhysicalClassPaths(theModel, pathFrom),
                              PhysicalClassPaths(theModel, pathTo), r[i])
      // complete up to the key: each dependency listed for such a pair has its key reported
      ensures forall d :: ListedBetween(dependencyFinder, PhysicalClassPaths(theModel, pathFrom),
                                        PhysicalClassPaths(theModel, pathTo), d)
                ==> HasKey(r, Key, Key(d))
    {
      var allFromTypeNames := AscendingList(PhysicalClassPaths(theModel, pathFrom));
      var allToTypeNames := AscendingList(PhysicalClassPaths(theModel, pathTo));
      var found := FilterDuplicates(allFromTypeNames, allToTypeNames, Key);
      var keys := AscendingList(found.Keys);
      r := seq(|keys|, n requires 0 <= n < |keys| => found[keys[n]]);
      ghost var cs := Discovered(theModel, dependencyFinder, pathFrom, pathTo);
      assert found == FirstByKey(cs, Key);
      ReportedAscending(cs, Key, found, keys, r);
      ReportedFirst(cs, Key, found, keys, r);
      ghost var F, T := PhysicalClassPaths(theModel, pathFrom), PhysicalClassPaths(theModel, pathTo);
      DiscoveredMembership(theModel, dependencyFinder, pathFrom, pathTo);
      ReportedSound(cs, dependencyFinder, F, T, Key, found, keys, r);
      ReportedComplete(cs, dependencyFinder, F, T, Key, found, keys, r);
    }

    /**
     * The three nested loops of getDependenciesFromSoftwareUnitToSoftwareUnit:
     * every dependency met is put into the TreeMap under its key unless the
     * key is already there. The loops are written for any key function; the
     * query passes Key.
     */
    method FilterDuplicates(allFromTypeNames: seq<string>, allToTypeNames: seq<string>, key: Dependency -> string)
      returns (found: map<string, Dependency>)
      ensures found == FirstByKey(Grid(dependencyFinder, allFromTypeNames, allToTypeNames), key)
    {
      found := map[];
      for i := 0 to |allFromTypeNames|
        invariant found == FirstByKey(Grid(dependencyFinder, allFromTypeNames[..i], allToTypeNames), key)
      {
        ghost var done := Grid(dependencyFinder, allFromTypeNames[..i], allToTypeNames);
        found := FilterRow(found, done, allFromTypeNames[i], allToTypeNames, key);
        GridSnoc(dependencyFinder, allFromTypeNames, allToTypeNames, i);
      }
      assert allFromTypeNames[..|allFromTypeNames|] == allFromTypeNames;
    }

    /** The middle loop: one from-type against every to-type. */
    method FilterRow(found0: map<string, Dependency>, ghost done: seq<Dependency>,
                     fromTypeName: string, allToTypeNames: seq<string>, key: Dependency -> string)
      returns (found: map<string, Dependency>)
      requires found0 == FirstByKey(done, key)
      ensures found == FirstByKey(done + Row(dependencyFinder, fromTypeName, allToTypeNames), key)
    {
      found := found0;
      assert done + Row(dependencyFinder, fromTypeName, allToTypeNames[..0]) == done;
      for j := 0 to |allToTypeNames|
        invariant found == FirstByKey(done + Row(dependencyFinder, fromTypeName, allToTypeNames[..j]), key)
      {
        ghost var before := done + Row(dependencyFinder, fromTypeName, allToTypeNames[..j]);
        found := FilterLookup(found, before, dependencyFinder.DependenciesFromTo(fromTypeName, allToTypeNames[j]), key);
        RowSnoc(dependencyFinder, fromTypeName, allToTypeNames, j);
        assert before + dependencyFinder.DependenciesFromTo(fromTypeName, allToTypeNames[j])
            == done + Row(dependencyFinder, fromTypeName, allToTypeNames[..j + 1]);
      }
      assert allToTypeNames[..|allToTypeNames|] == allToTypeNames;
    }

    /**
     * getAnalysisStatistics: the whole-model totals and, for a selected unit,
     * counts scoped to it. getTotalNumberOfLinesOfCode is a FamixModel
     * operation this model does not include; its value is a parameter.
     */
    method GetAnalysisStatistics(selectedModule: Option<SoftwareUnit>, totalNumberOfLinesOfCode: int)
      returns (s: AnalysisStatistics)
      requires Valid()
      ensures s.totalNrOfPackages
           == |theModel.packages| - (if LibrariesPackage in theModel.packages then 1 else 0)
      ensures s.totalNrOfClasses == |theModel.classes|
      ensures s.totalNrOfLinesOfCode == totalNumberOfLinesOfCode
      ensures s.totalNrOfDependencies == |dependencyFinder.all|
      // a package known to the model: the sizes of its two expansions and the lines of code of its classes
      ensures selectedModule.Some? && selectedModule.value.kind == "package"
              && selectedModule.value.uniqueName in theModel.packages
              ==> var name := selectedModule.value.uniqueName;
                  && s.selectionNrOfPackages == |PhysicalPackagePaths(theModel, name)|
                  && s.selectionNrOfClasses == |PhysicalClassPaths(theModel, name)|
                  && s.selectionNrOfLinesOfCode == LinesOfCodeIn(theModel, PhysicalClassPaths(theModel, name))
      // a class or interface known to the model: its own lines, and itself or its whole class expansion
      ensures selectedModule.Some? && selectedModule.value.kind in {"class", "interface"}
              && selectedModule.value.uniqueName in theModel.classes
              ==> var name := selectedModule.value.uniqueName;
                  var selected := theModel.classes[name];
                  && s.selectionNrOfPackages == 0
                  && s.selectionNrOfLinesOfCode == selected.linesOfCode
                  && s.selectionNrOfClasses
                     == (if selected.hasInnerClasses then |PhysicalClassPaths(theModel, name)| else 1)
      // no selection, an unknown unit or any other kind: all scoped counts are 0
      ensures || selectedModule.None?
              || (selectedModule.value.kind == "package" && selectedModule.value.uniqueName !in theModel.packages)
              || (selectedModule.value.kind in {"class", "interface"}
                  && selectedModule.value.uniqueName !in theModel.classes)
              || selectedModule.value.kind !in {"package", "class", "interface"}
              ==> s.selectionNrOfPackages == 0 && s.selectionNrOfClasses == 0 && s.selectionNrOfLinesOfCode == 0
    {
      var totalNrOfPackages := |theModel.packages|;
      if LibrariesPackage in theModel.packages {
        totalNrOfPackages := totalNrOfPackages - 1;
      }
      var packages, classes, linesOfCode := 0, 0, 0;
      if selectedModule.Some? {
        var unit := selectedModule.value;
        if unit.kind == "package" {
          if unit.uniqueName in theModel.packages {
            packages := |PhysicalPackagePaths(theModel, unit.uniqueName)|;
            var classesSet := PhysicalClassPaths(theModel, unit.uniqueName);
            classes := |classesSet|;
            var typeNames := AscendingList(classesSet);
            linesOfCode := SumLinesOfCode(typeNames);
          }
        } else if unit.kind == "class" || unit.kind == "interface" {
          if unit.uniqueName in theModel.classes {
            var selected := theModel.classes[unit.uniqueName];
            linesOfCode := selected.linesOfCode;
            if selected.hasInnerClasses {
              classes := |PhysicalClassPaths(theModel, unit.uniqueName)|;
            } else {
              classes := 1;
            }
          }
          packages := 0;
        }
      }
      s := AnalysisStatistics(totalNrOfPackages, |theModel.classes|, totalNumberOfLinesOfCode,
                              |dependencyFinder.all|, packages, classes, linesOfCode);
    }

    /** The loop of getAnalysisStatistics that adds up linesOfCode over the classes among typeNames. */
    method SumLinesOfCode(typeNames: seq<string>) returns (linesOfCode: int)
      ensures linesOfCode == LinesOfCodeOf(theModel, typeNames)
    {
      linesOfCode := 0;
      for i := 0 to |typeNames|
        invariant linesOfCode == LinesOfCodeOf(theModel, typeNames[..i])
      {
        var typeName := typeNames[i];
        if typeName in theModel.classes {
          linesOfCode := linesOfCode + theModel.classes[typeName].linesOfCode;
        }
        assert typeNames[..i + 1][..i] == typeNames[..i];
      }
      assert typeNames[..|typeNames|] == typeNames;
    }
  }

  /** The innermost loop: put each dependency of one lookup whose key is absent. */
  method FilterLookup(found0: map<string, Dependency>, ghost before: seq<Dependency>, deps: seq<Dependency>,
                      key: Dependency -> string)
    returns (found: map<string, Dependency>)
    requires found0 == FirstByKey(before, key)
    ensures found == FirstByKey(before + deps, key)
  {
    found := found0;
    assert before + deps[..0] == before;
    for k := 0 to |deps|
      invariant found == FirstByKey(before + deps[..k], key)
    {
      var dependency := deps[k];
      var uniqueName := key(dependency);
      FirstByKeySnoc(before + deps[..k], key, dependency);
      assert before + deps[..k + 1] == before + deps[..k] + [dependency];
      if uniqueName !in found {
        found := found[uniqueName := dependency];
      }
    }
    assert deps[..|deps|] == deps;
  }

  /** r lists the values of the TreeMap found in the order of its ascending key list. */
  ghost predicate ValuesInKeyOrder(found: map<string, Dependency>, keys: seq<string>, r: seq<Dependency>)
  {
    && Ascending(keys) && (forall k :: k in keys <==> k in found)
    && |r| == |keys| && forall n :: 0 <= n < |keys| ==> r[n] == found[keys[n]]
  }

  /** The values of the TreeMap come out in ascending key order, so no key comes out twice. */
  lemma ReportedAscending(cs: seq<Dependency>, key: Dependency -> string, found: map<string, Dependency>, keys: seq<string>, r: seq<Dependency>)
    requires found == FirstByKey(cs, key) && ValuesInKeyOrder(found, keys, r)
    ensures forall i, j :: 0 <= i < j < |r| ==> Less(key(r[i]), key(r[j]))
    ensures forall i, j :: 0 <= i < j < |r| ==> key(r[i]) != key(r[j])
  {
    FirstByKeyKeepsFirst(cs, key);
    assert forall i :: 0 <= i < |r| ==> key(r[i]) == keys[i];
    forall i, j | 0 <= i < j < |r|
      ensures key(r[i]) != key(r[j])
    {
      LessIrreflexive(key(r[i]));
    }
  }

  /** Each value of the TreeMap is the first dependency met under its key. */
  lemma ReportedFirst(cs: seq<Dependency>, key: Dependency -> string, found: map<string, Dependency>, keys: seq<string>, r: seq<Dependency>)
    requires found == FirstByKey(cs, key) && ValuesInKeyOrder(found, keys, r)
    ensures forall i :: 0 <= i < |r| ==> FirstWithKey(cs, key, r[i])
  {
    FirstByKeyKeepsFirst(cs, key);
    forall i | 0 <= i < |r|
      ensures FirstWithKey(cs, key, r[i])
    {
      assert keys[i] in found;
      assert key(r[i]) == keys[i];
    }
  }

  /** cs holds exactly what the dependency finder lists for the pairs of F and T. */
  ghost predicate MetExactly(cs: seq<Dependency>, fd: DependencyFinder, F: set<string>, T: set<string>)
  {
    forall d :: d in cs <==> ListedBetween(fd, F, T, d)
  }

  /** Nothing is reported that the dependency finder does not list for a pair of F and T. */
  lemma ReportedSound(cs: seq<Dependency>, fd: DependencyFinder, F: set<string>, T: set<string>,
                      key: Dependency -> string, found: map<string, Dependency>, keys: seq<string>, r: seq<Dependency>)
    requires MetExactly(cs, fd, F, T)
    requires found == FirstByKey(cs, key) && ValuesInKeyOrder(found, keys, r)
    ensures forall i :: 0 <= i < |r| ==> ListedBetween(fd, F, T, r[i])
  {
    FirstByKeyKeepsFirst(cs, key);
    forall i | 0 <= i < |r|
      ensures r[i] in cs
    {
      assert keys[i] in found;
    }
  }

  /** Every dependency listed for a pair of F and T has its key reported. */
  lemma ReportedComplete(cs: seq<Dependency>, fd: DependencyFinder, F: set<string>, T: set<string>,
                         key: Dependency -> string, found: map<string, Dependency>, keys: seq<string>, r: seq<Dependency>)
    requires MetExactly(cs, fd, F, T)
    requires found == FirstByKey(cs, key) && ValuesInKeyOrder(found, keys, r)
    ensures forall d :: ListedBetween(fd, F, T, d) ==> HasKey(r, key, key(d))
  {
    FirstByKeyKeepsFirst(cs, key);
    forall d | ListedBetween(fd, F, T, d)
      ensures HasKey(r, key, key(d))
    {
      assert d in cs;
      var n :| 0 <= n < |cs| && cs[n] == d;
      FirstByKeyComplete(cs, key, n);
      var i :| 0 <= i < |keys| && keys[i] == key(d);
      assert key(r[i]) == key(d);
    }
  }
}
