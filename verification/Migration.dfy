/**
  Schema migration, Migrate of internal/db/sql_store.go: first as the loop one instance runs, then as
  a transition system in which any number of instances migrate one database, each of them free to
  stop (crash, or fail and roll back) between any two transactions. Statement u takes version u to
  version u + 1. Creating the empty version table is idempotent and is not a separate step.
 */
module Migration {
  import opened Shield

  /** The statements applied so far, in order, and the rows of schema_version. */
  datatype Schema = Schema(applied: seq<nat>, versions: seq<nat>)

  /** COALESCE(MAX(version), 0) */
  function MaxVersion(versions: seq<nat>): (max: nat)
    ensures forall v :: v in versions ==> v <= max
    ensures max == 0 || max in versions
  {
    if versions == [] then 0
    else
      var rest := MaxVersion(versions[..|versions| - 1]);
      var last := versions[|versions| - 1];
      assert forall v :: v in versions ==> v in versions[..|versions| - 1] || v == last;
      if rest < last then last else rest
  }

  function Range(from: nat, to: nat): seq<nat>
    requires from <= to
  {
    seq(to - from, i requires 0 <= i < to - from => from + i)
  }

  /** The schema after one instance applied statements from, ..., to - 1. */
  function Migrated(db: Schema, from: nat, to: nat): Schema
    requires from <= to
  {
    Schema(db.applied + Range(from, to), db.versions + Range(from + 1, to + 1))
  }

  lemma MigratedOneMore(db: Schema, from: nat, to: nat)
    requires from <= to
    ensures Migrated(db, from, to + 1)
            == Schema(Migrated(db, from, to).applied + [to], Migrated(db, from, to).versions + [to + 1])
  {
  }

  class Database {
    var applied: seq<nat>
    var versions: seq<nat>

    function View(): Schema
      reads this
    {
      Schema(applied, versions)
    }

    /**
      Migrate: applies the missing statements in order, one transaction each, up to the first that
      fails; `fails(u)` says whether statement u's transaction is rolled back.
     */
    method Migrate(total: nat, fails: nat -> bool) returns (failed: Option<nat>)
      modifies this
      ensures var current := MaxVersion(old(versions));
              var reached := if failed.Some? then failed.value else if current < total then total else current;
              && current <= reached && View() == Migrated(old(View()), current, reached)
              && (forall u :: current <= u < reached ==> !fails(u))
              && (failed.Some? ==> failed.value < total && fails(failed.value))
    {
      var current := MaxVersion(versions);
      var i := current;
      while i < total
        invariant current <= i && (i <= total || i == current)
        invariant View() == Migrated(old(View()), current, i)
        invariant forall u :: current <= u < i ==> !fails(u)
      {
        if fails(i) {
          return Some(i);
        }
        MigratedOneMore(old(View()), current, i);
        applied := applied + [i];
        versions := versions + [i + 1];
        i := i + 1;
      }
      return None;
    }
  }

  // ----- many instances -----

  datatype Phase = Starting | Running(next: nat) | Finished | Stopped

  datatype State = State(db: Schema, phases: seq<Phase>)

  datatype Action = ReadVersion(who: nat) | Commit(who: nat) | Finish(who: nat) | Stop(who: nat)

  ghost predicate Enabled(total: nat, s: State, a: Action) {
    && a.who < |s.phases|
    && match a
       case ReadVersion(i) => s.phases[i].Starting?
       case Commit(i) => s.phases[i].Running? && s.phases[i].next < total
       case Finish(i) => s.phases[i].Running? && total <= s.phases[i].next
       case Stop(i) => true
  }

  ghost function Next(total: nat, s: State, a: Action): State
    requires Enabled(total, s, a)
  {
    match a
    case ReadVersion(i) => State(s.db, s.phases[i := Running(MaxVersion(s.db.versions))])
    case Commit(i) =>
      var u := s.phases[i].next;
      State(Schema(s.db.applied + [u], s.db.versions + [u + 1]), s.phases[i := Running(u + 1)])
    case Finish(i) => State(s.db, s.phases[i := Finished])
    case Stop(i) => State(s.db, s.phases[i := Stopped])
  }

  ghost predicate Initial(s: State) {
    s.db == Schema([], []) && forall p :: p in s.phases ==> p == Starting
  }

  ghost predicate Runs(total: nat, s: State, actions: seq<Action>, t: State)
    decreases |actions|
  {
    if actions == [] then s == t
    else Enabled(total, s, actions[0]) && Runs(total, Next(total, s, actions[0]), actions[1..], t)
  }

  /** The commits of one instance alone, up to any statement it reaches. */
  lemma {:induction false} CommitsAreARun(total: nat, s: State, who: nat, reached: nat) returns (actions: seq<Action>)
    requires who < |s.phases| && s.phases[who].Running? && s.phases[who].next <= reached
    requires reached <= total || reached == s.phases[who].next
    ensures Runs(total, s, actions, State(Migrated(s.db, s.phases[who].next, reached), s.phases[who := Running(reached)]))
    decreases reached - s.phases[who].next
  {
    var u := s.phases[who].next;
    if u == reached {
      actions := [];
      assert Migrated(s.db, u, u) == s.db && s.phases[who := Running(u)] == s.phases;
    } else {
      var next := Next(total, s, Commit(who));
      var rest := CommitsAreARun(total, next, who, reached);
      assert Migrated(next.db, u + 1, reached) == Migrated(s.db, u, reached);
      assert next.phases[who := Running(reached)] == s.phases[who := Running(reached)];
      actions := [Commit(who)] + rest;
      assert actions[1..] == rest;
    }
  }

  lemma {:induction false} RunsOneMore(total: nat, s: State, actions: seq<Action>, t: State, a: Action)
    requires Runs(total, s, actions, t) && Enabled(total, t, a)
    ensures Runs(total, s, actions + [a], Next(total, t, a))
    decreases |actions|
  {
    if actions == [] {
      assert ([] + [a])[1..] == [];
    } else {
      RunsOneMore(total, Next(total, s, actions[0]), actions[1..], t, a);
      assert (actions + [a])[1..] == actions[1..] + [a];
    }
  }

  /**
    What the contract of Migrate describes is a run of its instance alone: it reads the version, commits
    the missing statements, and finishes, or stops at the one that failed.
   */
  lemma MigrateIsARun(total: nat, s: State, who: nat, failed: Option<nat>) returns (actions: seq<Action>)
    requires who < |s.phases| && s.phases[who].Starting?
    requires failed.Some? ==> MaxVersion(s.db.versions) <= failed.value < total
    ensures var current := MaxVersion(s.db.versions);
            var reached := if failed.Some? then failed.value else if current < total then total else current;
            Runs(total, s, actions, State(Migrated(s.db, current, reached),
                                          s.phases[who := if failed.Some? then Stopped else Finished]))
  {
    var current := MaxVersion(s.db.versions);
    var reached := if failed.Some? then failed.value else if current < total then total else current;
    var read := Next(total, s, ReadVersion(who));
    var commits := CommitsAreARun(total, read, who, reached);
    var done := State(Migrated(read.db, current, reached), read.phases[who := Running(reached)]);
    var last := if failed.Some? then Stop(who) else Finish(who);
    RunsOneMore(total, read, commits, done, last);
    actions := [ReadVersion(who)] + (commits + [last]);
    assert actions[1..] == commits + [last];
    assert Next(total, done, last).phases == s.phases[who := if failed.Some? then Stopped else Finished];
  }

  ghost predicate AppliedUpTo(db: Schema, v: nat) {
    forall u: nat :: u < v ==> u in db.applied
  }

  /** Recorded versions, running instances and finished ones never claim more than was applied. */
  ghost predicate Sound(total: nat, s: State) {
    && (forall v :: v in s.db.versions ==> AppliedUpTo(s.db, v))
    && (forall p :: p in s.phases && p.Running? ==> AppliedUpTo(s.db, p.next) && p.next <= MaxVersion(s.db.versions))
    && (forall p :: p in s.phases && p.Finished? ==> AppliedUpTo(s.db, total))
    && (forall u :: u in s.db.applied ==> u < MaxVersion(s.db.versions))
  }

  lemma NextIsSound(total: nat, s: State, a: Action)
    requires Sound(total, s) && Enabled(total, s, a)
    ensures Sound(total, Next(total, s, a))
  {
    var t := Next(total, s, a);
    assert s.phases[a.who] in s.phases;
    assert forall p :: p in t.phases ==> p in s.phases || p == t.phases[a.who];
    assert forall u :: u in s.db.applied ==> u in t.db.applied;
    assert forall v: nat :: AppliedUpTo(s.db, v) ==> AppliedUpTo(t.db, v);
    if a.Commit? {
      var u := s.phases[a.who].next;
      assert u in t.db.applied && t.db.versions[|s.db.versions|] == u + 1;
      assert AppliedUpTo(t.db, u + 1);
      assert t.db.versions[..|s.db.versions|] == s.db.versions;
    }
  }

  /** Whatever the interleaving and wherever instances stop, version v means statements 0, ..., v - 1 ran. */
  lemma {:induction false} MigrationIsSafe(total: nat, s: State, actions: seq<Action>, t: State)
    requires Sound(total, s) && Runs(total, s, actions, t)
    ensures Sound(total, t)
    decreases |actions|
  {
    if actions != [] {
      NextIsSound(total, s, actions[0]);
      MigrationIsSafe(total, Next(total, s, actions[0]), actions[1..], t);
    }
  }

  lemma InitiallySound(total: nat, s: State)
    requires Initial(s)
    ensures Sound(total, s)
  {
  }

  // ----- exactly once -----

  /** "Each slice entry is applied exactly once in order": the k-th statement applied is statement k. */
  ghost predicate OnceInOrder(db: Schema) {
    forall k: nat :: k < |db.applied| ==> db.applied[k] == k
  }

  /** A commit by an instance whose idea of the version is out of date. */
  ghost predicate Stale(s: State, a: Action) {
    a.Commit? && a.who < |s.phases| && s.phases[a.who].Running? && s.phases[a.who].next != MaxVersion(s.db.versions)
  }

  ghost predicate NoneStale(total: nat, s: State, actions: seq<Action>, t: State)
    requires Runs(total, s, actions, t)
    decreases |actions|
  {
    actions == [] || (!Stale(s, actions[0]) && NoneStale(total, Next(total, s, actions[0]), actions[1..], t))
  }

  lemma {:induction false} AppliedOnlyGrows(total: nat, s: State, actions: seq<Action>, t: State)
    requires Runs(total, s, actions, t)
    ensures s.db.applied <= t.db.applied
    decreases |actions|
  {
    if actions != [] {
      AppliedOnlyGrows(total, Next(total, s, actions[0]), actions[1..], t);
    }
  }

  /** Sound and in order: as many statements applied as the version says. */
  lemma OnceInOrderCounts(total: nat, s: State)
    requires Sound(total, s) && OnceInOrder(s.db)
    ensures |s.db.applied| == MaxVersion(s.db.versions)
  {
    var n, max := |s.db.applied|, MaxVersion(s.db.versions);
    if max > 0 {
      assert AppliedUpTo(s.db, max);
      assert max - 1 in s.db.applied;
    }
    if n > 0 {
      assert s.db.applied[n - 1] in s.db.applied;
    }
  }

  /** Every statement is applied exactly once and in order iff no instance commits on a stale version. */
  lemma {:induction false} OnceIffNoneStale(total: nat, s: State, actions: seq<Action>, t: State)
    requires Sound(total, s) && OnceInOrder(s.db) && Runs(total, s, actions, t)
    ensures OnceInOrder(t.db) <==> NoneStale(total, s, actions, t)
    decreases |actions|
  {
    if actions != [] {
      var next := Next(total, s, actions[0]);
      NextIsSound(total, s, actions[0]);
      OnceInOrderCounts(total, s);
      if Stale(s, actions[0]) {
        assert s.phases[actions[0].who] in s.phases;
        AppliedOnlyGrows(total, next, actions[1..], t);
        var n := |s.db.applied|;
        assert t.db.applied[n] == next.db.applied[n] == s.phases[actions[0].who].next;
      } else {
        OnceIffNoneStale(total, next, actions[1..], t);
      }
    }
  }

  /** No instance reads the version while another one runs. */
  ghost predicate Serial(total: nat, s: State, actions: seq<Action>, t: State)
    requires Runs(total, s, actions, t)
    decreases |actions|
  {
    actions == [] || ((actions[0].ReadVersion? ==> forall p :: p in s.phases ==> !p.Running?)
                      && Serial(total, Next(total, s, actions[0]), actions[1..], t))
  }

  /** At most one instance runs, and it knows the current version. */
  ghost predicate OneUpToDate(s: State) {
    && (forall i :: 0 <= i < |s.phases| && s.phases[i].Running? ==> s.phases[i].next == MaxVersion(s.db.versions))
    && (forall i, j :: 0 <= i < |s.phases| && 0 <= j < |s.phases| && s.phases[i].Running? && s.phases[j].Running? ==> i == j)
  }

  lemma {:induction false} SerialIsNeverStale(total: nat, s: State, actions: seq<Action>, t: State)
    requires OneUpToDate(s) && Runs(total, s, actions, t) && Serial(total, s, actions, t)
    ensures NoneStale(total, s, actions, t)
    decreases |actions|
  {
    if actions != [] {
      var next := Next(total, s, actions[0]);
      if actions[0].Commit? {
        assert next.db.versions[..|s.db.versions|] == s.db.versions;
      }
      assert forall p :: p in s.phases <==> exists i :: 0 <= i < |s.phases| && s.phases[i] == p;
      assert OneUpToDate(next);
      SerialIsNeverStale(total, next, actions[1..], t);
    }
  }

  /**
    Instances that migrate one after the other, however many of them stop half-way, apply each
    statement once and in order; once one of them finishes, all of them have been applied.
   */
  lemma SerialMigrationsApplyOnce(total: nat, s: State, actions: seq<Action>, t: State)
    requires Initial(s) && Runs(total, s, actions, t) && Serial(total, s, actions, t)
    ensures OnceInOrder(t.db)
    ensures Finished in t.phases ==> t.db.applied == Range(0, total)
  {
    InitiallySound(total, s);
    assert forall i :: 0 <= i < |s.phases| ==> s.phases[i] in s.phases;
    SerialIsNeverStale(total, s, actions, t);
    OnceIffNoneStale(total, s, actions, t);
    MigrationIsSafe(total, s, actions, t);
    NoneBeyondTotal(total, s, actions, t);
    if Finished in t.phases {
      var n := |t.db.applied|;
      assert AppliedUpTo(t.db, total);
      if total > 0 {
        assert total - 1 in t.db.applied;
      }
      if n > 0 {
        assert t.db.applied[n - 1] in t.db.applied;
      }
    }
  }

  lemma {:induction false} NoneBeyondTotal(total: nat, s: State, actions: seq<Action>, t: State)
    requires Runs(total, s, actions, t) && forall u :: u in s.db.applied ==> u < total
    ensures forall u :: u in t.db.applied ==> u < total
    decreases |actions|
  {
    if actions != [] {
      NoneBeyondTotal(total, Next(total, s, actions[0]), actions[1..], t);
    }
  }

  /** Two instances that start together can both apply the first statement. */
  lemma OverlappingMigrationsMayRepeat()
    ensures exists actions, t ::
              Runs(1, State(Schema([], []), [Starting, Starting]), actions, t) && t.db.applied == [0, 0]
  {
    var s0 := State(Schema([], []), [Starting, Starting]);
    var s1 := Next(1, s0, ReadVersion(0));
    var s2 := Next(1, s1, ReadVersion(1));
    var s3 := Next(1, s2, Commit(0));
    var s4 := Next(1, s3, Commit(1));
    var actions := [ReadVersion(0), ReadVersion(1), Commit(0), Commit(1)];
    assert Runs(1, s4, [], s4);
    assert Runs(1, s3, [Commit(1)], s4) by { assert [Commit(1)][1..] == []; }
    assert Runs(1, s2, [Commit(0), Commit(1)], s4) by { assert [Commit(0), Commit(1)][1..] == [Commit(1)]; }
    var last3 := [ReadVersion(1), Commit(0), Commit(1)];
    assert Runs(1, s1, last3, s4) by { assert last3[1..] == [Commit(0), Commit(1)]; }
    assert Runs(1, s0, actions, s4) by { assert actions[1..] == last3; }
  }
}
