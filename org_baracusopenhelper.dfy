/**
 * org/baracus/dao/BaracusOpenHelper.java: the database's migration
 * driver. Migration steps are bound to version numbers; creating a
 * database applies the initial model and then upgrades it, and an upgrade
 * applies the bound steps of the versions above the old one up to the new
 * one, in ascending order.
 *
 * A migration step is a value naming the DDL it runs and reporting its
 * version number; the database is the log of the steps applied to it.
 * The static step map becomes a field of the helper.
 */
module OrgBaracusOpenHelper {
  import opened JavaLang

  /** MigrationStep: what applyVersion runs, and getModelVersionNumber. */
  datatype MigrationStep = MigrationStep(name: string, modelVersionNumber: int)

  /** org/baracus/migr8/ModelVersion000.java: creates the configuration table and reports version 1. */
  const MODEL_VERSION_000: MigrationStep := MigrationStep("ModelVersion000", 1)

  /** The version the class initialiser binds ModelVersion000 to. */
  const PREBOUND_VERSION: int := 110

  datatype OpenHelperError = VersionNumberAlreadyBoundException(version: int)

  /** An SQLiteDatabase as the migration steps see it: the steps applied to it, in order. */
  class SqlDatabase {
    var applied: seq<MigrationStep>

    constructor()
      ensures applied == []
    {
      applied := [];
    }

    /** step.applyVersion(db). */
    method Apply(step: MigrationStep)
      modifies this`applied
      ensures applied == old(applied) + [step]
    {
      applied := applied + [step];
    }
  }

  /** What onUpgrade applies going from lo to hi: the step bound to each version in (lo, hi], ascending. */
  function Upgrade(steps: map<int, MigrationStep>, lo: int, hi: int): seq<MigrationStep>
    decreases hi - lo
  {
    if hi <= lo then [] else Upgrade(steps, lo, hi - 1) + (if hi in steps then [steps[hi]] else [])
  }

  /** The versions in (lo, hi] that have a bound step, ascending. */
  function BoundVersions(steps: map<int, MigrationStep>, lo: int, hi: int): seq<int>
    decreases hi - lo
  {
    if hi <= lo then [] else BoundVersions(steps, lo, hi - 1) + (if hi in steps then [hi] else [])
  }

  /**
   * The bound versions are exactly the bound versions above lo and up to
   * hi, each once, in strictly ascending order.
   */
  lemma {:induction false} BoundVersionsSpec(steps: map<int, MigrationStep>, lo: int, hi: int)
    ensures forall k :: 0 <= k < |BoundVersions(steps, lo, hi)| ==>
      lo < BoundVersions(steps, lo, hi)[k] <= hi && BoundVersions(steps, lo, hi)[k] in steps
    ensures forall j, k :: 0 <= j < k < |BoundVersions(steps, lo, hi)| ==> BoundVersions(steps, lo, hi)[j] < BoundVersions(steps, lo, hi)[k]
    ensures forall v :: lo < v <= hi && v in steps ==> v in BoundVersions(steps, lo, hi)
    decreases hi - lo
  {
    if hi > lo {
      BoundVersionsSpec(steps, lo, hi - 1);
    }
  }

  /** An upgrade applies the steps of the bound versions, one per version, in ascending version order. */
  lemma {:induction false} UpgradeInVersionOrder(steps: map<int, MigrationStep>, lo: int, hi: int)
    ensures |Upgrade(steps, lo, hi)| == |BoundVersions(steps, lo, hi)|
    ensures forall k :: 0 <= k < |Upgrade(steps, lo, hi)| ==>
      BoundVersions(steps, lo, hi)[k] in steps && Upgrade(steps, lo, hi)[k] == steps[BoundVersions(steps, lo, hi)[k]]
    decreases hi - lo
  {
    if hi > lo {
      UpgradeInVersionOrder(steps, lo, hi - 1);
      BoundVersionsSpec(steps, lo, hi - 1);
    }
  }

  /** When the new version is not above the old one, nothing is applied. */
  lemma NoDowngrade(steps: map<int, MigrationStep>, lo: int, hi: int)
    requires hi <= lo
    ensures Upgrade(steps, lo, hi) == []
  {
  }

  /** A range of versions none of which is bound applies nothing. */
  lemma {:induction false} UnboundRangeSkipped(steps: map<int, MigrationStep>, lo: int, hi: int)
    requires forall v :: lo < v <= hi ==> v !in steps
    ensures Upgrade(steps, lo, hi) == []
    decreases hi - lo
  {
    if hi > lo {
      UnboundRangeSkipped(steps, lo, hi - 1);
    }
  }

  /** Upgrading in two legs applies what upgrading in one go applies. */
  lemma {:induction false} UpgradeInLegs(steps: map<int, MigrationStep>, lo: int, mid: int, hi: int)
    requires lo <= mid <= hi
    ensures Upgrade(steps, lo, hi) == Upgrade(steps, lo, mid) + Upgrade(steps, mid, hi)
    decreases hi - mid
  {
    if hi > mid {
      UpgradeInLegs(steps, lo, mid, hi - 1);
    }
  }

  /** onUpgrade's loop counter step as written: ++i on a Java int, wrapping at Integer.MAX_VALUE. */
  function NextCounter(i: int): (r: int)
    requires IsInt32(i)
    ensures IsInt32(r)
    ensures i < INT_MAX ==> r == i + 1
    ensures i == INT_MAX ==> r == INT_MIN
  {
    Wrap32(i + 1)
  }

  /**
   * With newVersion == Integer.MAX_VALUE the guard i <= newVersion holds
   * for every int the counter can take, before and after ++i, so the
   * loop of onUpgrade as written never ends.
   */
  lemma UpgradeToMaxNeverEnds(i: int)
    requires IsInt32(i)
    ensures i <= INT_MAX && IsInt32(NextCounter(i)) && NextCounter(i) <= INT_MAX
    ensures i == INT_MAX ==> NextCounter(i) < i
  {
  }

  class BaracusOpenHelper {
    /** upgradeSteps: version number to migration step. */
    var upgradeSteps: map<int, MigrationStep>
    const databaseName: string
    const targetDatabaseVersion: int
    /** Whether close() has run to completion. */
    var closed: bool

    /**
     * The class initialiser binds ModelVersion000 to version 110; the
     * constructor records the name and the target version.
     */
    constructor(databaseName: string, targetDatabaseVersion: int)
      ensures upgradeSteps == map[PREBOUND_VERSION := MODEL_VERSION_000]
      ensures this.databaseName == databaseName && this.targetDatabaseVersion == targetDatabaseVersion && !closed
    {
      upgradeSteps := map[PREBOUND_VERSION := MODEL_VERSION_000];
      this.databaseName := databaseName;
      this.targetDatabaseVersion := targetDatabaseVersion;
      closed := false;
    }

    function GetDatabaseName(): (r: string)
      ensures r == databaseName
    {
      databaseName
    }

    /** getInitialModel: ModelVersion000. */
    function GetInitialModel(): (r: MigrationStep)
      ensures r == MODEL_VERSION_000
    {
      MODEL_VERSION_000
    }

    /** addMigrationStep: a version number already bound throws and leaves the map as it was. */
    method AddMigrationStep(step: MigrationStep) returns (r: Option<OpenHelperError>)
      modifies this`upgradeSteps
      ensures r.Some? <==> step.modelVersionNumber in old(upgradeSteps)
      ensures r.Some? ==> r.value == VersionNumberAlreadyBoundException(step.modelVersionNumber) && upgradeSteps == old(upgradeSteps)
      ensures r.None? ==> upgradeSteps == old(upgradeSteps)[step.modelVersionNumber := step]
    {
      if step.modelVersionNumber in upgradeSteps {
        return Some(VersionNumberAlreadyBoundException(step.modelVersionNumber));
      }
      upgradeSteps := upgradeSteps[step.modelVersionNumber := step];
      r := None;
    }

    /**
     * onUpgrade: for i from oldVersion + 1 to newVersion, the step bound to
     * i is applied; an unbound version is skipped.
     */
    method OnUpgrade(db: SqlDatabase, oldVersion: int, newVersion: int)
      modifies db`applied
      ensures db.applied == old(db.applied) + Upgrade(upgradeSteps, oldVersion, newVersion)
    {
      var i := oldVersion + 1;
      while i <= newVersion
        invariant oldVersion < i <= if oldVersion < newVersion then newVersion + 1 else oldVersion + 1
        invariant db.applied == old(db.applied) + Upgrade(upgradeSteps, oldVersion, i - 1)
        decreases newVersion - i
      {
        if i in upgradeSteps {
          db.Apply(upgradeSteps[i]);
        }
        i := i + 1;
      }
    }

    /** onCreate: the initial model, then an upgrade from its version number to the target version. */
    method OnCreate(db: SqlDatabase)
      modifies db`applied
      ensures db.applied == old(db.applied) + [MODEL_VERSION_000] +
        Upgrade(upgradeSteps, MODEL_VERSION_000.modelVersionNumber, targetDatabaseVersion)
    {
      var initialModel := GetInitialModel();
      db.Apply(initialModel);
      OnUpgrade(db, initialModel.modelVersionNumber, targetDatabaseVersion);
    }

    /** onDestroy: close(); a failure of close is logged and swallowed. */
    method OnDestroy(closeFails: bool)
      modifies this`closed
      ensures closed == (old(closed) || !closeFails)
    {
      if !closeFails {
        closed := true;
      }
    }
  }

  /**
   * With only the class initialiser's binding, creating a database at a
   * target version of 110 or more applies ModelVersion000 twice: once as
   * the initial model and once more as the step bound to 110.
   */
  lemma InitialModelAppliedTwice(target: int)
    requires target >= PREBOUND_VERSION
    ensures [MODEL_VERSION_000] + Upgrade(map[PREBOUND_VERSION := MODEL_VERSION_000], MODEL_VERSION_000.modelVersionNumber, target)
      == [MODEL_VERSION_000, MODEL_VERSION_000]
  {
    var steps := map[PREBOUND_VERSION := MODEL_VERSION_000];
    UpgradeInLegs(steps, 1, PREBOUND_VERSION - 1, target);
    UpgradeInLegs(steps, PREBOUND_VERSION - 1, PREBOUND_VERSION, target);
    UnboundRangeSkipped(steps, 1, PREBOUND_VERSION - 1);
    UnboundRangeSkipped(steps, PREBOUND_VERSION, target);
    assert Upgrade(steps, PREBOUND_VERSION - 1, PREBOUND_VERSION) == [MODEL_VERSION_000];
  }

  /** The class initialiser's binding makes adding a step of version 110 throw. */
  method PreboundVersionScenario() returns (r: Option<OpenHelperError>)
    ensures r == Some(VersionNumberAlreadyBoundException(PREBOUND_VERSION))
  {
    var helper := new BaracusOpenHelper("app.db", 200);
    r := helper.AddMigrationStep(MigrationStep("ModelVersion110", PREBOUND_VERSION));
  }
}
