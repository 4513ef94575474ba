/**
 * `schedule`: the greedy first-fit round builder. The rounds grow in
 * place, so they live in a `RoundBuilder` object whose one mutating
 * method is the closure `addUserToRound`.
 */
module Common {
  import opened Types
  import opened Order
  import opened Placement

  /** The rounds under construction and the team size they are built for. */
  class RoundBuilder {
    var rounds: seq<Round>
    const teamSize: nat

    ghost predicate Valid()
      reads this
    {
      WellFormed(rounds, teamSize)
    }

    constructor (teamSize: nat)
      ensures this.teamSize == teamSize
      ensures rounds == []
      ensures Valid()
    {
      this.teamSize := teamSize;
      rounds := [];
    }

    /**
     * Scan the rounds in index order and append `newUser` to the first one
     * that does not hold the same player, is not full and, for a mercy
     * entry, has room under the mercy quota; open a new round otherwise.
     */
    method AddUserToRound(newUser: ScheduleUser)
      modifies this
      ensures rounds == Place(old(rounds), newUser, teamSize)
      ensures old(Valid()) ==> Valid()
    {
      ghost var before := rounds;
      if Valid() {
        PlacePreservesWellFormed(before, newUser, teamSize);
      }
      var i := 0;
      while i < |rounds|
        invariant 0 <= i <= |rounds|
        invariant rounds == before
        invariant forall j :: 0 <= j < i ==> !Admits(rounds[j], newUser, teamSize)
      {
        var users := rounds[i].users;
        var isUserExist := HasQq(users, newUser.user.qq);
        var mercies := MercyCount(users);
        var isMercySatisfy := 4 * mercies <= teamSize;
        var isLengthSatisfy := |users| < teamSize;
        if !isUserExist && isMercySatisfy && isLengthSatisfy {
          if newUser.role == Mercy && 4 * (mercies + 1) > teamSize {
            i := i + 1;
            continue;
          }
          rounds := rounds[i := Round(users + [newUser])];
          return;
        }
        i := i + 1;
      }
      rounds := rounds + [Round([newUser])];
    }

    /** One counted `for` loop of the `forEach` callback: place `n` copies of `e`. */
    method AddCopies(e: ScheduleUser, n: nat, ghost placed: seq<ScheduleUser>)
      requires Valid()
      requires rounds == PlaceAll(placed, teamSize)
      modifies this
      ensures Valid()
      ensures rounds == PlaceAll(placed + Repeat(e, n), teamSize)
    {
      assert placed + Repeat(e, 0) == placed;
      for k := 0 to n
        invariant Valid()
        invariant rounds == PlaceAll(placed + Repeat(e, k), teamSize)
      {
        ghost var done := placed + Repeat(e, k);
        AddUserToRound(e);
        assert (done + [e])[..|done|] == done;
        assert placed + Repeat(e, k + 1) == done + [e];
      }
    }

    /**
     * The `forEach` callback for one sign-up: its mercy entries, then its
     * dps1 entries, then its dps2 entries, each placed by `AddUserToRound`.
     * `placed` is what was placed before, ghost.
     */
    method AddUser(user: LostarkSchedule, ghost placed: seq<ScheduleUser>)
      requires Valid()
      requires rounds == PlaceAll(placed, teamSize)
      modifies this
      ensures Valid()
      ensures rounds == PlaceAll(placed + UserEntries(user), teamSize)
    {
      ghost var p1 := placed + Repeat(ScheduleUser(user, Mercy), user.mercy);
      ghost var p2 := p1 + Repeat(ScheduleUser(user, Dps1), user.dps1);
      AddCopies(ScheduleUser(user, Mercy), user.mercy, placed);
      AddCopies(ScheduleUser(user, Dps1), user.dps1, p1);
      AddCopies(ScheduleUser(user, Dps2), user.dps2, p2);
      EntriesAppend(placed, user);
    }
  }

  /** Appending a sign-up's entries is appending its three runs one after another. */
  lemma EntriesAppend(placed: seq<ScheduleUser>, user: LostarkSchedule)
    ensures placed + UserEntries(user)
      == placed + Repeat(ScheduleUser(user, Mercy), user.mercy)
         + Repeat(ScheduleUser(user, Dps1), user.dps1)
         + Repeat(ScheduleUser(user, Dps2), user.dps2)
  {
  }

  /**
   * Build the rounds for the sign-ups `users` and a team of `teamSize`:
   * sort a copy by descending total (ties in input order), then place each
   * sign-up's mercy, dps1 and dps2 entries one by one, first fit.
   */
  method Schedule(users: seq<LostarkSchedule>, teamSize: nat) returns (rounds: seq<Round>)
    ensures rounds == PlaceAll(EntryStream(SortByTotal(users)), teamSize)
    ensures WellFormed(rounds, teamSize)
    ensures forall qq, roles :: RoundsOccurrences(rounds, qq, roles) == Declared(users, qq, roles)
    ensures EntryCount(rounds) == SumTotals(users)
    ensures forall u :: u in users ==> Total(u) <= |rounds|
  {
    var builder := new RoundBuilder(teamSize);
    var pool := SortByTotal(users);
    ghost var placed: seq<ScheduleUser> := [];
    for i := 0 to |pool|
      invariant builder.Valid() && builder.teamSize == teamSize
      invariant placed == EntryStream(pool[..i])
      invariant builder.rounds == PlaceAll(placed, teamSize)
    {
      EntryStreamSnoc(pool, i);
      builder.AddUser(pool[i], placed);
      placed := placed + UserEntries(pool[i]);
    }
    assert pool[..|pool|] == pool;
    rounds := builder.rounds;
    ScheduleProperties(users, teamSize, rounds);
  }

  /** The team size `schedule` uses when its caller passes none (`mapTeamNumber = 8`). */
  const DefaultTeamSize: nat := 8

  /**
   * `schedule` called with an `undefined` team size, as happens when the
   * boss has no entry in the team-size table: it schedules for eight.
   */
  method ScheduleWithDefault(users: seq<LostarkSchedule>, mapTeamNumber: Option<nat>) returns (rounds: seq<Round>)
    ensures var teamSize := if mapTeamNumber.Some? then mapTeamNumber.value else DefaultTeamSize;
      && rounds == PlaceAll(EntryStream(SortByTotal(users)), teamSize)
      && WellFormed(rounds, teamSize)
    ensures mapTeamNumber.None? ==> forall r :: r in rounds ==> |r.users| <= 8 && MercyCount(r.users) <= 2
  {
    var teamSize := if mapTeamNumber.Some? then mapTeamNumber.value else DefaultTeamSize;
    rounds := Schedule(users, teamSize);
  }

  lemma EntryStreamSnoc(ps: seq<LostarkSchedule>, i: nat)
    requires i < |ps|
    ensures EntryStream(ps[..i + 1]) == EntryStream(ps[..i]) + UserEntries(ps[i])
  {
    assert ps[..i + 1][..i] == ps[..i];
  }

  /**
   * What the rounds built for `users` guarantee: every round is well
   * formed, each player's slots are all placed, role by role, and there
   * are at least as many rounds as any one sign-up committed slots.
   */
  lemma ScheduleProperties(users: seq<LostarkSchedule>, teamSize: nat, rounds: seq<Round>)
    requires rounds == PlaceAll(EntryStream(SortByTotal(users)), teamSize)
    ensures WellFormed(rounds, teamSize)
    ensures forall qq, roles :: RoundsOccurrences(rounds, qq, roles) == Declared(users, qq, roles)
    ensures EntryCount(rounds) == SumTotals(users)
    ensures forall u :: u in users ==> Total(u) <= |rounds|
  {
    var pool := SortByTotal(users);
    var stream := EntryStream(pool);
    PlaceAllWellFormed(stream, teamSize);
    forall qq, roles
      ensures RoundsOccurrences(rounds, qq, roles) == Declared(users, qq, roles)
    {
      PlaceAllCounts(stream, teamSize, qq, roles);
      EntryStreamOccurrences(pool, qq, roles);
      SortByTotalDeclared(users, qq, roles);
    }
    PlaceAllCounts(stream, teamSize, "", {});
    EntryStreamOccurrences(pool, "", {});
    SortByTotalDeclared(users, "", {});
    forall u | u in users
      ensures Total(u) <= |rounds|
    {
      DeclaredCoversMember(users, u, AllRoles);
      OccurrencesAtMostRounds(rounds, teamSize, u.qq, AllRoles);
    }
  }
}
