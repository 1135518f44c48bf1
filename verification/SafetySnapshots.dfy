/** The safety snapshot of a database restore, in the engine that runs it: what the
    restore names when it returns is still in the repository. */
module SafetySnapshots {
  import opened RunModel
  import opened RunEngine
  import opened RunSafety
  import opened RunTheorems
  import DB = DatabaseRestore
  import PG = PostgresRestore

  /** A run names no other snapshot than the one its safety backup made. */
  lemma NamedIsSafety(w: DB.World, p: DB.Plan, f: DB.Faults)
    ensures var v := DB.RestoreRun(w, p, f).1;
            v.Named().Some? ==> f.safety.Saved? && v.Named() == Some(f.safety.id)
  {
  }

  /** The database holds what it held, or the dump; or the run names a snapshot that
      holds what it held and is in the repository. */
  ghost predicate NotLostIn(repository: set<SnapshotId>, w: DB.World, p: DB.Plan, w': DB.World, v: DB.Verdict) {
    || PG.SameRows(w.dbs, w'.dbs, p.name)
    || PG.Holds(w'.dbs, p.name, p.dump)
    || (v.Named().Some? && DB.HoldsOld(w, p, w', v.Named().value) && v.Named().value in repository)
  }

  /** A restore run with a safety backup of an existing database executes in the
      engine, its backup adds a snapshot to its repository, and whatever else happens
      in the engine until its work returns: at that moment nothing is lost, under any
      schedule of failures. */
  lemma NothingLostInRepository(s: State, id: RunId, repo: RepoId, w: DB.World, p: DB.Plan, f: DB.Faults, steps: seq<Step>)
    requires Reachable(s) && s.ExecutingOn(id, repo) && s.db[id].kind == RestoreDB
    requires DB.Fresh(w, p, f) && p.safety && p.name in w.dbs && f.safety.Saved?
    requires var s1 := Apply(s, Effect(id, {f.safety.id}, {}));
             CanRun(s1, steps) && Run(s1, steps).ExecutingOn(id, repo)
    ensures var repository := Run(Apply(s, Effect(id, {f.safety.id}, {})), steps).Snapshots(repo);
            NotLostIn(repository, w, p, DB.RestoreRun(w, p, f).0, DB.RestoreRun(w, p, f).1)
  {
    DB.NothingLost(w, p, f);
    NamedIsSafety(w, p, f);
    OwnSnapshotStays(s, id, repo, f.safety.id, steps);
  }

  /** If the safety backup fails instead, the database is not touched at all. */
  lemma FailedBackupTouchesNothing(w: DB.World, p: DB.Plan, f: DB.Faults)
    requires p.safety && p.name in w.dbs && f.safety.NotSaved?
    ensures DB.RestoreRun(w, p, f).0 == w
  {
  }
}
