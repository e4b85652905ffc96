/**
  A deployed database over its whole life: created empty, then upgraded by the
  script of one release after the other, with ordinary statements in between.  A
  script that is refused leaves the database as it was.
 */
module History {
  import opened Catalog
  import opened Migrations
  import opened Tracking
  import opened Convergence
  import opened Storage
  import opened TableOrder
  import opened Emission
  import opened Ddl
  import opened Rendering
  import opened Upgrade
  import opened Again
  import opened Settling
  import opened RowsKept
  import opened Fresh
  import opened Deployment

  /** The script generated when the chain had its first `upTo` steps. */
  datatype Release = Release(upTo: nat, plan: Plan, dumps: seq<TableDump>, tables: seq<TableDef>, ordered: seq<TableDef>)

  /** The chain runs, is disciplined and makes no use of the temporary names beforehand. */
  ghost predicate Sound(db0: Database, chain: seq<Step>, temps: set<Name>) {
    Runs(db0, chain) && Disciplined(chain, temps) && db0.Keys !! temps
  }

  /** The release is generated from the chain as it was. */
  ghost predicate ReleaseOf(db0: Database, chain: seq<Step>, r: Release) {
    && r.upTo <= |chain| && Runs(db0, chain[..r.upTo])
    && PlanOf(r.plan, chain[..r.upTo], Run(db0, chain[..r.upTo]), r.dumps)
    && Generated(r.plan, r.tables, r.ordered)
  }

  ghost predicate Growing(releases: seq<Release>) {
    forall i, j :: 0 <= i < j < |releases| ==> releases[i].upTo <= releases[j].upTo
  }

  /** Growing prefixes of one chain. */
  ghost predicate Releases(db0: Database, chain: seq<Step>, releases: seq<Release>) {
    Growing(releases) && forall i :: 0 <= i < |releases| ==> IsRelease(db0, chain, releases, i)
  }

  ghost predicate IsRelease(db0: Database, chain: seq<Step>, releases: seq<Release>, i: nat)
    requires i < |releases|
  {
    ReleaseOf(db0, chain, releases[i])
  }

  function OutcomeOf(s: State, r: Release): Outcome {
    ExecAll(s, ScriptOf(r.plan, r.ordered))
  }

  /** What is there after the release: a refused script is rolled back. */
  function Deployed(s: State, o: Outcome): State {
    if o.Reached? then o.state else s
  }

  /** Ordinary statements change rows and nothing else. */
  ghost predicate SameSchema(a: State, b: State) {
    SameCatalog(a.tables, b.tables) && a.keys == b.keys && a.indexes == b.indexes && a.links == b.links
  }

  /** The database just before a release, and what the script does to it. */
  datatype Moment = Moment(state: State, outcome: Outcome)

  /** The moments of a database: empty at first, and later whatever the application has made of the rows since
      the release before. */
  ghost predicate Life(releases: seq<Release>, life: seq<Moment>) {
    |life| == |releases| && forall i :: 0 <= i < |life| ==> Continues(releases, life, i)
  }

  ghost predicate Continues(releases: seq<Release>, life: seq<Moment>, i: nat)
    requires i < |life| == |releases|
  {
    && Lawful(life[i].state) && life[i].outcome == OutcomeOf(life[i].state, releases[i])
    && if i == 0 then life[i].state == EMPTY else SameSchema(Deployed(life[i - 1].state, life[i - 1].outcome), life[i].state)
  }

  /** The point of the chain the database has been brought to before release `i`. */
  function Point(releases: seq<Release>, life: seq<Moment>, i: nat): nat
    requires |life| == |releases| && i <= |releases|
  {
    if i == 0 then 0
    else if life[i - 1].outcome.Reached? then releases[i - 1].upTo
    else Point(releases, life, i - 1)
  }

  lemma {:induction false} PointIsBehind(releases: seq<Release>, life: seq<Moment>, i: nat)
    requires Growing(releases) && |life| == |releases| && i < |releases|
    ensures Point(releases, life, i) <= releases[i].upTo
  {
    if i > 0 {
      PointIsBehind(releases, life, i - 1);
      assert releases[i - 1].upTo <= releases[i].upTo;
    }
  }

  /** The database has been brought to where the chain has done `n` steps. */
  ghost predicate At(db: Database, db0: Database, chain: seq<Step>, n: nat, temps: set<Name>) {
    n <= |chain| && Runs(db0, chain[..n]) && Tracks(db, Run(db0, chain[..n]), chain[..n], temps)
  }

  /** At its point the database has the rest of the release outstanding. */
  lemma AtIsOutstanding(db0: Database, s: State, chain: seq<Step>, from: nat, upTo: nat, temps: set<Name>)
    requires Sound(db0, chain, temps) && At(s.tables, db0, chain, from, temps) && Lawful(s) && from <= upTo <= |chain|
    ensures Runs(db0, chain[..upTo]) && chain[..from] + chain[from..upTo] == chain[..upTo]
    ensures Outstanding(s, Run(db0, chain[..from]), chain[..from], chain[from..upTo], temps)
    ensures Run(Run(db0, chain[..from]), chain[from..upTo]) == Run(db0, chain[..upTo])
  {
    var seen, ahead, rest := chain[..from], chain[from..upTo], chain[upTo..];
    assert chain[..upTo] == seen + ahead && chain == seen + ahead + rest;
    RunAppend(db0, seen + ahead, rest);
    RunAppend(db0, seen, ahead);
    DisciplineSplits(seen + ahead, rest, temps);
  }

  /** An upgrade brings the database from any earlier point of the chain to that of the release. */
  lemma OneUpgrade(db0: Database, s: State, chain: seq<Step>, from: nat, r: Release, temps: set<Name>, once: State)
    requires Sound(db0, chain, temps) && At(s.tables, db0, chain, from, temps) && Lawful(s)
    requires ReleaseOf(db0, chain, r) && from <= r.upTo && OutcomeOf(s, r) == Reached(once)
    ensures At(once.tables, db0, chain, r.upTo, temps) && Lawful(once)
    ensures NothingLostBut(s.tables, once.tables, Written(r.plan.repairs + r.plan.backfills))
    ensures forall t :: t in Run(db0, chain[..r.upTo]) ==>
              t in once.tables && Run(db0, chain[..r.upTo])[t].cols.Keys <= once.tables[t].cols.Keys
    ensures Apart(r.plan) ==> (OutcomeOf(once, r) == Reached(once) <==> NullsKept(s, r.plan) && AllKeyed(once, r.plan.seeds))
  {
    var b, seen, ahead := Run(db0, chain[..from]), chain[..from], chain[from..r.upTo];
    AtIsOutstanding(db0, s, chain, from, r.upTo, temps);
    UpgradeIsSound(s, b, seen, ahead, temps, r.plan, r.tables, r.ordered, r.dumps, once);
    DeclaredIsThere(Run(b, ahead), Converge(s.tables, RenamesOf(seen + ahead), r.dumps), Replay(s.tables, RenamesOf(ahead)), once.tables);
  }

  lemma DeclaredIsThere(final: Database, out: Database, moved: Database, db: Database)
    requires Merged(moved, final, out) && SameCatalog(db, out)
    ensures forall t :: t in final ==> t in db && final[t].cols.Keys <= db[t].cols.Keys
  {
    forall t | t in final
      ensures t in db && final[t].cols.Keys <= db[t].cols.Keys
    {
      if t in moved { assert MergedTable(moved[t], final[t].cols, out[t]); }
    }
  }

  lemma AtBySchema(a: State, c: State, db0: Database, chain: seq<Step>, n: nat, temps: set<Name>)
    requires At(a.tables, db0, chain, n, temps) && SameSchema(a, c)
    ensures At(c.tables, db0, chain, n, temps)
  {
    TracksByCatalog(a.tables, c.tables, Run(db0, chain[..n]), chain[..n], temps);
  }

  /** A release and the statements after it. */
  lemma LifeStep(db0: Database, s: State, chain: seq<Step>, from: nat, r: Release, temps: set<Name>, o: Outcome, next: State, to: nat)
    requires Sound(db0, chain, temps) && At(s.tables, db0, chain, from, temps) && Lawful(s)
    requires ReleaseOf(db0, chain, r) && from <= r.upTo && o == OutcomeOf(s, r) && SameSchema(Deployed(s, o), next)
    requires to == if o.Reached? then r.upTo else from
    ensures At(next.tables, db0, chain, to, temps)
  {
    if o.Reached? {
      OneUpgrade(db0, s, chain, from, r, temps, o.state);
      AtBySchema(o.state, next, db0, chain, r.upTo, temps);
    } else {
      AtBySchema(s, next, db0, chain, from, temps);
    }
  }

  lemma LifeStarts(db0: Database, chain: seq<Step>, temps: set<Name>)
    requires Sound(db0, chain, temps)
    ensures At(EMPTY.tables, db0, chain, 0, temps)
  {
    EmptyTracks(db0, [], temps);
  }

  lemma MomentIs(releases: seq<Release>, life: seq<Moment>, i: nat)
    requires Life(releases, life) && i < |life|
    ensures Lawful(life[i].state) && life[i].outcome == OutcomeOf(life[i].state, releases[i])
  {
    assert Continues(releases, life, i);
  }

  lemma MomentFollows(releases: seq<Release>, life: seq<Moment>, i: nat)
    requires Life(releases, life) && 0 < i < |life|
    ensures SameSchema(Deployed(life[i - 1].state, life[i - 1].outcome), life[i].state)
  {
    assert Continues(releases, life, i);
  }

  lemma ReleaseIs(db0: Database, chain: seq<Step>, releases: seq<Release>, i: nat)
    requires Releases(db0, chain, releases) && i < |releases|
    ensures ReleaseOf(db0, chain, releases[i])
  {
    assert IsRelease(db0, chain, releases, i);
  }

  lemma NextMoment(db0: Database, chain: seq<Step>, releases: seq<Release>, life: seq<Moment>, i: nat, temps: set<Name>)
    requires Sound(db0, chain, temps) && Releases(db0, chain, releases) && Life(releases, life) && i + 1 < |releases|
    requires At(life[i].state.tables, db0, chain, Point(releases, life, i), temps)
    ensures At(life[i + 1].state.tables, db0, chain, Point(releases, life, i + 1), temps)
  {
    var r, before := releases[i], life[i];
    PointIsBehind(releases, life, i);
    MomentIs(releases, life, i);
    MomentFollows(releases, life, i + 1);
    ReleaseIs(db0, chain, releases, i);
    LifeStep(db0, before.state, chain, Point(releases, life, i), r, temps, before.outcome, life[i + 1].state, Point(releases, life, i + 1));
  }

  /** Whatever releases a database has been through, gone through or refused, and whatever was done to its rows
      between them, it is on the track of the chain before each release. */
  lemma {:induction false} LifeTracks(db0: Database, chain: seq<Step>, releases: seq<Release>, life: seq<Moment>, i: nat, temps: set<Name>)
    requires Sound(db0, chain, temps) && Releases(db0, chain, releases) && Life(releases, life) && i < |releases|
    ensures At(life[i].state.tables, db0, chain, Point(releases, life, i), temps)
  {
    if i == 0 {
      assert Continues(releases, life, 0);
      LifeStarts(db0, chain, temps);
    } else {
      LifeTracks(db0, chain, releases, life, i - 1, temps);
      NextMoment(db0, chain, releases, life, i - 1, temps);
    }
  }

  /** Every upgrade of every life that goes through: no row is lost and no cell but those the declared updates
      write, every key and foreign key holds, the declared tables and columns are there, and a second run
      changes nothing exactly when the updates overwrote no last NULL and every seed row has a key. */
  lemma EveryUpgradeIsSound(db0: Database, chain: seq<Step>, releases: seq<Release>, life: seq<Moment>, i: nat, temps: set<Name>, once: State)
    requires Sound(db0, chain, temps) && Releases(db0, chain, releases) && Life(releases, life) && i < |releases|
    requires life[i].outcome == Reached(once)
    ensures ReleaseOf(db0, chain, releases[i]) && Lawful(once)
    ensures var r, s := releases[i], life[i].state;
            && NothingLostBut(s.tables, once.tables, Written(r.plan.repairs + r.plan.backfills))
            && (forall t :: t in Run(db0, chain[..r.upTo]) ==>
                  t in once.tables && Run(db0, chain[..r.upTo])[t].cols.Keys <= once.tables[t].cols.Keys)
            && (Apart(r.plan) ==> (OutcomeOf(once, r) == Reached(once) <==> NullsKept(s, r.plan) && AllKeyed(once, r.plan.seeds)))
  {
    var r, s := releases[i], life[i].state;
    LifeTracks(db0, chain, releases, life, i, temps);
    PointIsBehind(releases, life, i);
    MomentIs(releases, life, i);
    ReleaseIs(db0, chain, releases, i);
    OneUpgrade(db0, s, chain, Point(releases, life, i), r, temps, once);
  }
}
