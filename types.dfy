/** The records the scheduler reads and produces: a sign-up, one placed entry, a round. */
module Types {

  /** A value that may be absent: `null` or `undefined` in the source. */
  datatype Option<T> = None | Some(value: T)

  /** The three kinds of slot a sign-up can commit to. */
  datatype Role = Dps1 | Dps2 | Mercy

  const AllRoles: set<Role> := {Dps1, Dps2, Mercy}

  /**
   * One sign-up record for one boss and one week. Only the fields the
   * scheduler reads are kept: the player's QQ number, which identifies
   * the player, and the number of slots committed per role.
   */
  datatype LostarkSchedule = LostarkSchedule(qq: string, dps1: nat, dps2: nat, mercy: nat)

  /** One slot of one player in a round. */
  datatype ScheduleUser = ScheduleUser(user: LostarkSchedule, role: Role)

  /** A round (one team), its entries in the order they were placed. */
  datatype Round = Round(users: seq<ScheduleUser>)

  /** Total committed slots `dps1 + dps2 + mercy`, the sort key. */
  function Total(u: LostarkSchedule): nat
  {
    u.dps1 + u.dps2 + u.mercy
  }

  /** Slots `u` committed to the roles in `roles`. */
  function RoleCount(u: LostarkSchedule, roles: set<Role>): (n: nat)
    ensures n <= Total(u)
    ensures roles == AllRoles ==> n == Total(u)
    ensures roles == {} ==> n == 0
  {
    (if Mercy in roles then u.mercy else 0)
    + (if Dps1 in roles then u.dps1 else 0)
    + (if Dps2 in roles then u.dps2 else 0)
  }

  function Max(a: int, b: int): int
  {
    if a < b then b else a
  }
}
