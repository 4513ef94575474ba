/**
 * The placement rule of `addUserToRound` as a function on values: the
 * tests a round must pass to take an entry, the first-fit choice, and the
 * invariants and counts that placing entries one by one keeps.
 */
module Placement {
  import opened Types
  import opened Order

  /** Mercy entries in a round (`users.filter(user => user.role === 'mercy').length`). */
  function MercyCount(users: seq<ScheduleUser>): (c: nat)
    ensures c <= |users|
  {
    if users == [] then 0
    else MercyCount(users[..|users| - 1]) + (if users[|users| - 1].role == Mercy then 1 else 0)
  }

  /** Some entry of the round belongs to the player `qq` (`users.some(...)`). */
  predicate HasQq(users: seq<ScheduleUser>, qq: string)
  {
    exists i :: 0 <= i < |users| && users[i].user.qq == qq
  }

  /**
   * The three tests of `addUserToRound` for round `r` and entry `e`, with
   * `needMercy = teamSize / 4` kept exact: `c <= teamSize / 4` is
   * `4 * c <= teamSize` and `c + 1 > teamSize / 4` is `4 * (c + 1) > teamSize`.
   */
  predicate Admits(r: Round, e: ScheduleUser, teamSize: nat)
  {
    var mercies := MercyCount(r.users);
    && !HasQq(r.users, e.user.qq)
    && 4 * mercies <= teamSize
    && |r.users| < teamSize
    && !(e.role == Mercy && 4 * (mercies + 1) > teamSize)
  }

  /** Index of the first round at or after `from` that admits `e`, or `|rs|` if none does. */
  function FirstFitFrom(rs: seq<Round>, e: ScheduleUser, teamSize: nat, from: nat): (k: nat)
    requires from <= |rs|
    ensures from <= k <= |rs|
    ensures forall j :: from <= j < k ==> !Admits(rs[j], e, teamSize)
    ensures k < |rs| ==> Admits(rs[k], e, teamSize)
    decreases |rs| - from
  {
    if from == |rs| || Admits(rs[from], e, teamSize) then from
    else FirstFitFrom(rs, e, teamSize, from + 1)
  }

  /**
   * `addUserToRound` on values: append `e` to the first round that admits
   * it, or open a new round holding only `e` when none does.
   */
  function Place(rs: seq<Round>, e: ScheduleUser, teamSize: nat): seq<Round>
  {
    var k := FirstFitFrom(rs, e, teamSize, 0);
    if k < |rs| then rs[k := Round(rs[k].users + [e])] else rs + [Round([e])]
  }

  /**
   * `addUserToRound` only appends: every earlier round keeps its entries
   * in order, at most one round gains `e` at its end, and it is the
   * lowest-index round that admits `e`; a new round `[e]` is opened
   * exactly when no round admits `e`.
   */
  lemma PlaceFirstFit(rs: seq<Round>, e: ScheduleUser, teamSize: nat)
    ensures var rs' := Place(rs, e, teamSize);
      && (|rs'| == |rs| || |rs'| == |rs| + 1)
      && (|rs'| == |rs| + 1 <==> forall j :: 0 <= j < |rs| ==> !Admits(rs[j], e, teamSize))
      && (|rs'| == |rs| + 1 ==> rs' == rs + [Round([e])])
      && (|rs'| == |rs| ==>
            exists k :: 0 <= k < |rs|
              && Admits(rs[k], e, teamSize)
              && (forall j :: 0 <= j < k ==> !Admits(rs[j], e, teamSize))
              && rs' == rs[k := Round(rs[k].users + [e])])
  {
  }

  /** Placing the entries of `es` one after the other, starting with no rounds. */
  function PlaceAll(es: seq<ScheduleUser>, teamSize: nat): seq<Round>
  {
    if es == [] then [] else Place(PlaceAll(es[..|es| - 1], teamSize), es[|es| - 1], teamSize)
  }

  /** No player occupies two entries of one round. */
  predicate NoDuplicateQq(users: seq<ScheduleUser>)
  {
    forall i, j :: 0 <= i < j < |users| ==> users[i].user.qq != users[j].user.qq
  }

  /**
   * What every round built by `addUserToRound` satisfies: it is non-empty
   * and holds at most `teamSize` entries (one when `teamSize` is 0), no
   * player twice, and at most `teamSize / 4` mercies (one when `teamSize < 4`).
   */
  predicate RoundOk(r: Round, teamSize: nat)
  {
    && 1 <= |r.users| <= Max(teamSize, 1)
    && NoDuplicateQq(r.users)
    && 4 * MercyCount(r.users) <= Max(teamSize, 4)
  }

  predicate WellFormed(rs: seq<Round>, teamSize: nat)
  {
    forall i :: 0 <= i < |rs| ==> RoundOk(rs[i], teamSize)
  }

  lemma MercyCountSnoc(users: seq<ScheduleUser>, e: ScheduleUser)
    ensures MercyCount(users + [e]) == MercyCount(users) + (if e.role == Mercy then 1 else 0)
  {
    assert (users + [e])[..|users|] == users;
  }

  lemma AppendKeepsRoundOk(r: Round, e: ScheduleUser, teamSize: nat)
    requires RoundOk(r, teamSize)
    requires Admits(r, e, teamSize)
    ensures RoundOk(Round(r.users + [e]), teamSize)
  {
    MercyCountSnoc(r.users, e);
    var u := r.users + [e];
    forall i, j | 0 <= i < j < |u| ensures u[i].user.qq != u[j].user.qq {
      if j == |r.users| {
        assert u[i] == r.users[i];
      }
    }
  }

  /** Placing an entry keeps every round well formed. */
  lemma PlacePreservesWellFormed(rs: seq<Round>, e: ScheduleUser, teamSize: nat)
    requires WellFormed(rs, teamSize)
    ensures WellFormed(Place(rs, e, teamSize), teamSize)
  {
    var k := FirstFitFrom(rs, e, teamSize, 0);
    if k < |rs| {
      AppendKeepsRoundOk(rs[k], e, teamSize);
    } else {
      assert MercyCount([e]) == MercyCount([]) + (if e.role == Mercy then 1 else 0) by {
        MercyCountSnoc([], e);
      }
    }
  }

  lemma {:induction false} PlaceAllWellFormed(es: seq<ScheduleUser>, teamSize: nat)
    ensures WellFormed(PlaceAll(es, teamSize), teamSize)
  {
    if es != [] {
      PlaceAllWellFormed(es[..|es| - 1], teamSize);
      PlacePreservesWellFormed(PlaceAll(es[..|es| - 1], teamSize), es[|es| - 1], teamSize);
    }
  }

  /**
   * With `teamSize >= 4` the `isMercySatisfy` test never rejects a round
   * that `addUserToRound` built: only the other tests decide.
   */
  lemma MercyTestRedundant(rs: seq<Round>, e: ScheduleUser, teamSize: nat)
    requires WellFormed(rs, teamSize)
    requires teamSize >= 4
    ensures forall j :: 0 <= j < |rs| ==>
      (Admits(rs[j], e, teamSize) <==>
        && !HasQq(rs[j].users, e.user.qq)
        && |rs[j].users| < teamSize
        && !(e.role == Mercy && 4 * (MercyCount(rs[j].users) + 1) > teamSize))
  {
  }

  /**
   * Below a team size of 4 the `isMercySatisfy` test does decide: a round
   * of two holding one mercy turns away a dps entry of another player,
   * although that entry passes the other two tests.
   */
  lemma MercyTestMattersBelowFour(a: LostarkSchedule, b: LostarkSchedule)
    requires a.qq != b.qq
    ensures var r := Round([ScheduleUser(a, Mercy)]);
      && WellFormed([r], 2)
      && !HasQq(r.users, b.qq) && |r.users| < 2
      && !Admits(r, ScheduleUser(b, Dps1), 2)
  {
    MercyCountSnoc([], ScheduleUser(a, Mercy));
  }

  // Counting entries.

  /** Entries of player `qq` with a role in `roles`. */
  function Occurrences(users: seq<ScheduleUser>, qq: string, roles: set<Role>): nat
  {
    if users == [] then 0
    else
      var e := users[|users| - 1];
      Occurrences(users[..|users| - 1], qq, roles) + (if e.user.qq == qq && e.role in roles then 1 else 0)
  }

  /** Entries of player `qq` with a role in `roles`, over all rounds. */
  function RoundsOccurrences(rs: seq<Round>, qq: string, roles: set<Role>): nat
  {
    if rs == [] then 0
    else RoundsOccurrences(rs[..|rs| - 1], qq, roles) + Occurrences(rs[|rs| - 1].users, qq, roles)
  }

  /** Entries over all rounds. */
  function EntryCount(rs: seq<Round>): nat
  {
    if rs == [] then 0 else EntryCount(rs[..|rs| - 1]) + |rs[|rs| - 1].users|
  }

  lemma {:induction false} OccurrencesConcat(a: seq<ScheduleUser>, b: seq<ScheduleUser>, qq: string, roles: set<Role>)
    ensures Occurrences(a + b, qq, roles) == Occurrences(a, qq, roles) + Occurrences(b, qq, roles)
    decreases |b|
  {
    if b == [] {
      assert a + b == a;
    } else {
      assert (a + b)[..|a + b| - 1] == a + b[..|b| - 1];
      OccurrencesConcat(a, b[..|b| - 1], qq, roles);
    }
  }

  lemma {:induction false} RepeatOccurrences(e: ScheduleUser, n: nat, qq: string, roles: set<Role>)
    ensures Occurrences(Repeat(e, n), qq, roles) == if e.user.qq == qq && e.role in roles then n else 0
  {
    if n > 0 {
      RepeatOccurrences(e, n - 1, qq, roles);
      assert Repeat(e, n)[..n - 1] == Repeat(e, n - 1);
    }
  }

  /** Every entry emitted for one sign-up is counted against its QQ and role. */
  lemma UserEntriesOccurrences(u: LostarkSchedule, qq: string, roles: set<Role>)
    ensures Occurrences(UserEntries(u), qq, roles) == if u.qq == qq then RoleCount(u, roles) else 0
  {
    var m, d1, d2 := Repeat(ScheduleUser(u, Mercy), u.mercy), Repeat(ScheduleUser(u, Dps1), u.dps1), Repeat(ScheduleUser(u, Dps2), u.dps2);
    OccurrencesConcat(m + d1, d2, qq, roles);
    OccurrencesConcat(m, d1, qq, roles);
    RepeatOccurrences(ScheduleUser(u, Mercy), u.mercy, qq, roles);
    RepeatOccurrences(ScheduleUser(u, Dps1), u.dps1, qq, roles);
    RepeatOccurrences(ScheduleUser(u, Dps2), u.dps2, qq, roles);
  }

  /** The emitted stream holds exactly the slots the roster declared, per player and role. */
  lemma {:induction false} EntryStreamOccurrences(ps: seq<LostarkSchedule>, qq: string, roles: set<Role>)
    ensures Occurrences(EntryStream(ps), qq, roles) == Declared(ps, qq, roles)
    ensures |EntryStream(ps)| == SumTotals(ps)
  {
    if ps != [] {
      var init, u := ps[..|ps| - 1], ps[|ps| - 1];
      EntryStreamOccurrences(init, qq, roles);
      OccurrencesConcat(EntryStream(init), UserEntries(u), qq, roles);
      UserEntriesOccurrences(u, qq, roles);
    }
  }

  lemma {:induction false} RoundsOccurrencesUpdate(rs: seq<Round>, k: nat, r: Round, qq: string, roles: set<Role>)
    requires k < |rs|
    ensures RoundsOccurrences(rs[k := r], qq, roles) + Occurrences(rs[k].users, qq, roles)
      == RoundsOccurrences(rs, qq, roles) + Occurrences(r.users, qq, roles)
    ensures EntryCount(rs[k := r]) + |rs[k].users| == EntryCount(rs) + |r.users|
  {
    var n := |rs|;
    if k == n - 1 {
      assert rs[k := r][..n - 1] == rs[..n - 1];
    } else {
      assert rs[k := r][..n - 1] == rs[..n - 1][k := r];
      RoundsOccurrencesUpdate(rs[..n - 1], k, r, qq, roles);
    }
  }

  /** Placing `e` adds exactly one entry, and it is `e`. */
  lemma PlaceCounts(rs: seq<Round>, e: ScheduleUser, teamSize: nat, qq: string, roles: set<Role>)
    ensures RoundsOccurrences(Place(rs, e, teamSize), qq, roles)
      == RoundsOccurrences(rs, qq, roles) + (if e.user.qq == qq && e.role in roles then 1 else 0)
    ensures EntryCount(Place(rs, e, teamSize)) == EntryCount(rs) + 1
  {
    var k := FirstFitFrom(rs, e, teamSize, 0);
    OccurrencesConcat([], [e], qq, roles);
    if k < |rs| {
      RoundsOccurrencesUpdate(rs, k, Round(rs[k].users + [e]), qq, roles);
      OccurrencesConcat(rs[k].users, [e], qq, roles);
    } else {
      var rs' := rs + [Round([e])];
      assert rs'[..|rs'| - 1] == rs;
      assert [e][..0] == [];
    }
  }

  /**
   * Conservation: the rounds hold exactly the placed entries, counted per
   * player and role and in total.
   */
  lemma {:induction false} PlaceAllCounts(es: seq<ScheduleUser>, teamSize: nat, qq: string, roles: set<Role>)
    ensures RoundsOccurrences(PlaceAll(es, teamSize), qq, roles) == Occurrences(es, qq, roles)
    ensures EntryCount(PlaceAll(es, teamSize)) == |es|
  {
    if es != [] {
      var init, e := es[..|es| - 1], es[|es| - 1];
      PlaceAllCounts(init, teamSize, qq, roles);
      PlaceCounts(PlaceAll(init, teamSize), e, teamSize, qq, roles);
    }
  }

  lemma {:induction false} NoQqNoOccurrences(users: seq<ScheduleUser>, qq: string, roles: set<Role>)
    requires !HasQq(users, qq)
    ensures Occurrences(users, qq, roles) == 0
  {
    if users != [] {
      NoQqNoOccurrences(users[..|users| - 1], qq, roles);
    }
  }

  /** A round without duplicate players holds at most one entry of any player. */
  lemma {:induction false} NoDuplicateAtMostOne(users: seq<ScheduleUser>, qq: string, roles: set<Role>)
    requires NoDuplicateQq(users)
    ensures Occurrences(users, qq, roles) <= 1
  {
    if users != [] {
      var init := users[..|users| - 1];
      if users[|users| - 1].user.qq == qq {
        NoQqNoOccurrences(init, qq, roles);
      } else {
        NoDuplicateAtMostOne(init, qq, roles);
      }
    }
  }

  /** Well-formed rounds hold any one player at most once per round. */
  lemma {:induction false} OccurrencesAtMostRounds(rs: seq<Round>, teamSize: nat, qq: string, roles: set<Role>)
    requires WellFormed(rs, teamSize)
    ensures RoundsOccurrences(rs, qq, roles) <= |rs|
  {
    if rs != [] {
      OccurrencesAtMostRounds(rs[..|rs| - 1], teamSize, qq, roles);
      NoDuplicateAtMostOne(rs[|rs| - 1].users, qq, roles);
    }
  }
}
