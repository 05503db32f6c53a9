/**
 * org/baracus/util/LoggingConfiguration.java: log levels configured per
 * package name (plus a default), resolved once per package and cached.
 *
 * The level enum is declared inside org/baracus/util/Logger.java; it lives
 * here because the logger module imports this one.
 */
module OrgLoggingConfiguration {
  import opened JavaLang

  /** Logger.Level, from the most to the least severe. */
  datatype Level = ERROR | WARN | INFO | DEBUG | TRACE

  /** How chatty a level is: ERROR 0 up to TRACE 4. */
  function Verbosity(l: Level): nat
  {
    match l
    case ERROR => 0
    case WARN => 1
    case INFO => 2
    case DEBUG => 3
    case TRACE => 4
  }

  /** The key under which the default level is configured. */
  const DEFAULT: string := "<default>"

  /**
   * isLoggable(Level, Level): a package configured at `configured` lets a
   * message of level l through exactly when l is at most as chatty.
   */
  function Allows(configured: Level, l: Level): (ok: bool)
    ensures ok <==> Verbosity(l) <= Verbosity(configured)
  {
    match configured
    case TRACE => true
    case DEBUG => l != TRACE
    case INFO => l != TRACE && l != DEBUG
    case WARN => l == WARN || l == ERROR
    case ERROR => l == ERROR
  }

  /** ERROR gets through whatever a package is configured with. */
  lemma ErrorAlwaysAllowed(configured: Level)
    ensures Allows(configured, ERROR)
    ensures Allows(configured, TRACE) <==> configured == TRACE
  {
  }

  /** A name without line terminators, as every Java package name is. */
  ghost predicate PlainName(k: string)
  {
    forall i :: 0 <= i < |k| ==> !IsLineTerminator(k[i])
  }

  /**
   * A configured key that determinePackageFromConfig records as best match
   * for `name`: a proper prefix whose split(".") has more than
   * bestMatchPrecision = 0 pieces (the precision is never raised).
   */
  ghost predicate IsCandidate(configured: map<string, Level>, name: string, k: string)
  {
    k in configured && k != name && StartsWith(name, k) && |SplitOnAnyChar(k)| > 0
  }

  /**
   * The levels determinePackageFromConfig may cache for `name`: the exact
   * entry; otherwise the level of some candidate (the one iterated last);
   * otherwise the default.
   */
  ghost predicate Admissible(configured: map<string, Level>, name: string, l: Level)
    requires DEFAULT in configured
  {
    if name in configured then l == configured[name]
    else if exists k :: IsCandidate(configured, name, k) then
      exists k :: IsCandidate(configured, name, k) && l == configured[k]
    else l == configured[DEFAULT]
  }

  /**
   * What the lookup comes to for plain names: the exact entry, else an
   * entry for the empty name, else the default.
   */
  function Resolve(configured: map<string, Level>, name: string): Level
    requires DEFAULT in configured
  {
    if name in configured then configured[name]
    else if "" in configured then configured[""]
    else configured[DEFAULT]
  }

  /** Only the empty name can be a candidate: split(".") of any other plain name is empty. */
  lemma CandidateIsEmptyName(configured: map<string, Level>, name: string, k: string)
    requires PlainName(k) && IsCandidate(configured, name, k)
    ensures k == [] && name != []
  {
    SplitOnAnyCharNonEmptyIff(k);
  }

  /**
   * With plain keys the cached level is determined: it is Resolve's. So a
   * configured parent package ("org" for "org.baracus") is never consulted.
   */
  lemma AdmissibleIsResolve(configured: map<string, Level>, name: string, l: Level)
    requires DEFAULT in configured
    requires forall k :: k in configured ==> PlainName(k)
    ensures Admissible(configured, name, l) <==> l == Resolve(configured, name)
  {
    if name !in configured {
      if "" in configured {
        assert IsCandidate(configured, name, "") by {
          SplitOnAnyCharNonEmptyIff("");
        }
      }
      forall k | IsCandidate(configured, name, k)
        ensures k == []
      {
        CandidateIsEmptyName(configured, name, k);
      }
    }
  }

  /**
   * The package hierarchy its doc comment describes does not happen: with
   * "org" at WARN, "org.baracus.util" gets the default ERROR, not WARN.
   */
  lemma ParentPackageIgnored(l: Level)
    ensures Admissible(map[DEFAULT := ERROR, "org" := WARN], "org.baracus.util", l) <==> l == ERROR
  {
    var c := map[DEFAULT := ERROR, "org" := WARN];
    forall k | k in c ensures PlainName(k) {
      if k == "org" {
        assert k == ['o', 'r', 'g'];
      } else {
        assert k == ['<', 'd', 'e', 'f', 'a', 'u', 'l', 't', '>'];
      }
    }
    AdmissibleIsResolve(c, "org.baracus.util", l);
  }

  /** The number of '.' separators in a name. */
  function Dots(k: string): nat
  {
    if k == [] then 0 else (if k[0] == '.' then 1 else 0) + Dots(k[1..])
  }

  /** A configured key that names a proper prefix of `name`: a parent package, or the empty name. */
  ghost predicate IsParent(configured: map<string, Level>, name: string, k: string)
  {
    k in configured && k != name && StartsWith(name, k)
  }

  /** A parent entry with the most separators, the closest package the doc comment promises. */
  ghost predicate IsClosest(configured: map<string, Level>, name: string, k: string)
  {
    IsParent(configured, name, k) && forall p :: IsParent(configured, name, p) ==> Dots(p) <= Dots(k)
  }

  /**
   * The levels the documented lookup caches for `name`: the exact entry;
   * otherwise the level of a closest parent entry; otherwise the default.
   */
  ghost predicate IntendedAdmissible(configured: map<string, Level>, name: string, l: Level)
    requires DEFAULT in configured
  {
    if name in configured then l == configured[name]
    else if exists k :: IsParent(configured, name, k) then
      exists k :: IsClosest(configured, name, k) && l == configured[k]
    else l == configured[DEFAULT]
  }

  /** The documented lookup does consult the parent: "org" at WARN decides "org.baracus.util". */
  lemma ParentPackageApplies(l: Level)
    ensures IntendedAdmissible(map[DEFAULT := ERROR, "org" := WARN], "org.baracus.util", l) <==> l == WARN
  {
    var c := map[DEFAULT := ERROR, "org" := WARN];
    var name := "org.baracus.util";
    assert StartsWith(name, "org") by {
      assert name[..3] == "org";
    }
    assert !StartsWith(name, DEFAULT) by {
      assert name[0] != DEFAULT[0];
    }
    assert IsClosest(c, name, "org");
    forall k | IsClosest(c, name, k)
      ensures k == "org"
    {
    }
  }

  /**
   * What a lookup of `name` does to the state: the configured levels stay;
   * a cached name keeps the cache as it was; otherwise one admissible level
   * is added for it.
   */
  ghost predicate FilledFor(oldConfigured: map<string, Level>, oldCache: map<string, Level>,
                            configured: map<string, Level>, cache: map<string, Level>, name: string)
  {
    configured == oldConfigured && DEFAULT in configured && name in cache &&
    (name in oldCache ==> cache == oldCache) &&
    (name !in oldCache ==> Admissible(configured, name, cache[name]) && cache == oldCache[name := cache[name]])
  }

  class LoggingConfiguration {
    /** The levels set by package, class and name, plus DEFAULT. */
    var configuredMap: map<string, Level>
    /** The cache: the level determined for each package asked about. */
    var packageMap: map<string, Level>

    ghost predicate Valid()
      reads this
    {
      DEFAULT in configuredMap
    }

    /** A fresh configuration only logs errors. */
    constructor()
      ensures Valid()
      ensures configuredMap == map[DEFAULT := ERROR] && packageMap == map[]
    {
      configuredMap := map[DEFAULT := ERROR];
      packageMap := map[];
    }

    /** isLoggable(Package, Level): consult the cache, filling it on a miss. */
    method IsLoggable(packageName: string, level: Level) returns (ok: bool)
      requires Valid()
      modifies this
      ensures Valid()
      ensures FilledFor(old(configuredMap), old(packageMap), configuredMap, packageMap, packageName)
      ensures ok == Allows(packageMap[packageName], level)
    {
      if packageName !in packageMap {
        DeterminePackageFromConfig(packageName);
      }
      ok := Allows(packageMap[packageName], level);
    }

    /**
     * determinePackageFromConfig: one pass over the configured keys in
     * HashMap order (any order here); an exact match is cached at once,
     * otherwise the last candidate's level or else the default.
     */
    method DeterminePackageFromConfig(name: string)
      requires Valid()
      modifies this
      ensures Valid() && configuredMap == old(configuredMap)
      ensures name in packageMap && Admissible(configuredMap, name, packageMap[name])
      ensures packageMap == old(packageMap)[name := packageMap[name]]
    {
      var bestMatch: Option<string> := None;
      var bestMatchLevel: Level := ERROR;
      var bestMatchPrecision := 0;
      var remaining := configuredMap.Keys;
      while remaining != {}
        invariant remaining <= configuredMap.Keys
        invariant name in configuredMap ==> name in remaining
        invariant bestMatch.Some? ==>
          IsCandidate(configuredMap, name, bestMatch.value) && bestMatchLevel == configuredMap[bestMatch.value]
        invariant bestMatch.None? ==>
          forall k :: k in configuredMap.Keys - remaining ==> !IsCandidate(configuredMap, name, k)
        invariant packageMap == old(packageMap) && configuredMap == old(configuredMap)
        decreases remaining
      {
        var packageName :| packageName in remaining;
        if packageName == name {
          packageMap := packageMap[name := configuredMap[packageName]];
          return;
        } else if StartsWith(name, packageName) {
          var precision := |SplitOnAnyChar(packageName)|;
          if precision > bestMatchPrecision {
            bestMatch := Some(packageName);
            bestMatchLevel := configuredMap[packageName];
          }
        }
        remaining := remaining - {packageName};
      }
      if bestMatch.Some? {
        packageMap := packageMap[name := bestMatchLevel];
      } else {
        packageMap := packageMap[name := configuredMap[DEFAULT]];
      }
    }

    /**
     * determinePackageFromConfig as its doc comment describes it: the
     * precision counts the pieces of split("\\.") and is raised with every
     * better match, so an exact entry wins, else the closest configured
     * parent package, else the default.
     */
    method DeterminePackageIntended(name: string)
      requires Valid()
      modifies this
      ensures Valid() && configuredMap == old(configuredMap)
      ensures name in packageMap && IntendedAdmissible(configuredMap, name, packageMap[name])
      ensures packageMap == old(packageMap)[name := packageMap[name]]
    {
      var bestMatch: Option<string> := None;
      var bestMatchLevel: Level := ERROR;
      var bestMatchPrecision := 0;
      var remaining := configuredMap.Keys;
      while remaining != {}
        invariant remaining <= configuredMap.Keys
        invariant name in configuredMap ==> name in remaining
        invariant bestMatch.Some? ==>
          IsParent(configuredMap, name, bestMatch.value) && bestMatchLevel == configuredMap[bestMatch.value]
          && bestMatchPrecision == Dots(bestMatch.value) + 1
        invariant bestMatch.None? ==> bestMatchPrecision == 0
        invariant forall k :: k in configuredMap.Keys - remaining && IsParent(configuredMap, name, k) ==>
          bestMatch.Some? && Dots(k) + 1 <= bestMatchPrecision
        invariant packageMap == old(packageMap) && configuredMap == old(configuredMap)
        decreases remaining
      {
        var packageName :| packageName in remaining;
        if packageName == name {
          packageMap := packageMap[name := configuredMap[packageName]];
          return;
        } else if StartsWith(name, packageName) {
          var precision := Dots(packageName) + 1;
          if precision > bestMatchPrecision {
            bestMatch := Some(packageName);
            bestMatchLevel := configuredMap[packageName];
            bestMatchPrecision := precision;
          }
        }
        remaining := remaining - {packageName};
      }
      if bestMatch.Some? {
        assert IsClosest(configuredMap, name, bestMatch.value);
        packageMap := packageMap[name := bestMatchLevel];
      } else {
        packageMap := packageMap[name := configuredMap[DEFAULT]];
      }
    }

    /** setLogLevel(Package, Level): configure the package's name; the cache is left alone. */
    method SetPackageLogLevel(packageName: string, level: Level)
      requires Valid()
      modifies this
      ensures Valid() && packageMap == old(packageMap)
      ensures configuredMap == old(configuredMap)[packageName := level]
    {
      configuredMap := configuredMap[packageName := level];
    }

    /** setLogLevel(Class, Level): configure the class's package. */
    method SetClassLogLevel(c: ClassRef, level: Level)
      requires Valid()
      modifies this
      ensures Valid() && packageMap == old(packageMap)
      ensures configuredMap == old(configuredMap)[c.packageName := level]
    {
      configuredMap := configuredMap[c.packageName := level];
    }

    /** setLogLevel(String, Level): configure a name such as "org.baracus". */
    method SetLogLevel(packageName: string, level: Level)
      requires Valid()
      modifies this
      ensures Valid() && packageMap == old(packageMap)
      ensures configuredMap == old(configuredMap)[packageName := level]
    {
      configuredMap := configuredMap[packageName := level];
    }

    /** setDefaultLogLevel: the level of packages without a configured match. */
    method SetDefaultLogLevel(level: Level)
      requires Valid()
      modifies this
      ensures Valid() && packageMap == old(packageMap)
      ensures configuredMap == old(configuredMap)[DEFAULT := level]
    {
      configuredMap := configuredMap[DEFAULT := level];
    }

    /** reset: forget the cached levels; the configured ones stay. */
    method Reset()
      requires Valid()
      modifies this
      ensures Valid() && configuredMap == old(configuredMap)
      ensures packageMap == map[]
    {
      packageMap := map[];
    }
  }

  /**
   * The cache at work: a package first asked about under the default only
   * logs errors; configuring it afterwards has no effect until reset.
   */
  method CacheScenario() returns (before: bool, stale: bool, after: bool)
    ensures !before && !stale && after
  {
    var c := new LoggingConfiguration();
    var pkg := "org.baracus.dao";
    assert !StartsWith(pkg, DEFAULT) by {
      assert pkg[0] != DEFAULT[0];
    }
    before := c.IsLoggable(pkg, INFO);
    c.SetLogLevel(pkg, DEBUG);
    stale := c.IsLoggable(pkg, INFO);
    c.Reset();
    after := c.IsLoggable(pkg, INFO);
  }
}
