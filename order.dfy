/**
 * The order in which `schedule` places entries: sign-ups stably sorted by
 * descending total, and for each sign-up its mercy entries, then its dps1
 * entries, then its dps2 entries.
 */
module Order {
  import opened Types

  /** The comparator handed to `Array.prototype.sort`: negative puts `a` first. */
  function SortFunc(a: LostarkSchedule, b: LostarkSchedule): (r: int)
    ensures r < 0 <==> Total(a) > Total(b)
    ensures r == 0 <==> Total(a) == Total(b)
  {
    Total(b) - Total(a)
  }

  /** Non-increasing in total. */
  ghost predicate SortedDesc(s: seq<LostarkSchedule>)
  {
    forall i, j :: 0 <= i < j < |s| ==> Total(s[i]) >= Total(s[j])
  }

  /**
   * Where a stable sort puts `x` when `x` precedes every element of `t`
   * in the input: in front of the first element the comparator does not
   * rank strictly above it.
   */
  function InsertPos(x: LostarkSchedule, t: seq<LostarkSchedule>): (k: nat)
    ensures k <= |t|
    ensures forall j :: 0 <= j < k ==> Total(t[j]) > Total(x)
    ensures k < |t| ==> Total(t[k]) <= Total(x)
  {
    if t == [] || SortFunc(x, t[0]) <= 0 then 0 else 1 + InsertPos(x, t[1..])
  }

  function Insert(x: LostarkSchedule, t: seq<LostarkSchedule>): seq<LostarkSchedule>
  {
    var k := InsertPos(x, t);
    t[..k] + [x] + t[k..]
  }

  /** Where each element of `t` lands once `x` is inserted. */
  lemma InsertAt(x: LostarkSchedule, t: seq<LostarkSchedule>, i: int)
    requires 0 <= i <= |t|
    ensures |Insert(x, t)| == |t| + 1
    ensures Insert(x, t)[i] == (if i < InsertPos(x, t) then t[i] else if i == InsertPos(x, t) then x else t[i - 1])
  {
  }

  lemma InsertSorted(x: LostarkSchedule, t: seq<LostarkSchedule>)
    requires SortedDesc(t)
    ensures SortedDesc(Insert(x, t))
  {
    var k := InsertPos(x, t);
    var r := Insert(x, t);
    forall i, j | 0 <= i < j < |r| ensures Total(r[i]) >= Total(r[j]) {
      InsertAt(x, t, i);
      InsertAt(x, t, j);
      if i == k && j <= |t| {
        assert Total(t[k]) <= Total(x);
      }
    }
  }

  lemma InsertPermutes(x: LostarkSchedule, t: seq<LostarkSchedule>)
    ensures multiset(Insert(x, t)) == multiset(t) + multiset{x}
  {
    var k := InsertPos(x, t);
    assert t == t[..k] + t[k..];
  }

  /**
   * `pool.sort(sortFunc)` on the copied roster: `Array.prototype.sort` is
   * stable, and a stable sort under this comparator has exactly one
   * possible result, built here by insertion.
   */
  function SortByTotal(s: seq<LostarkSchedule>): (r: seq<LostarkSchedule>)
    ensures SortedDesc(r)
    ensures multiset(r) == multiset(s)
    ensures |r| == |s|
  {
    if s == [] then []
    else
      var rest := SortByTotal(s[1..]);
      InsertSorted(s[0], rest);
      InsertPermutes(s[0], rest);
      assert s == [s[0]] + s[1..];
      assert |multiset(Insert(s[0], rest))| == |Insert(s[0], rest)|;
      Insert(s[0], rest)
  }

  /** The sign-ups of `s` whose total is `n`, in their order in `s`. */
  function Ties(s: seq<LostarkSchedule>, n: nat): seq<LostarkSchedule>
  {
    if s == [] then []
    else (if Total(s[0]) == n then [s[0]] else []) + Ties(s[1..], n)
  }

  lemma {:induction false} TiesConcat(a: seq<LostarkSchedule>, b: seq<LostarkSchedule>, n: nat)
    ensures Ties(a + b, n) == Ties(a, n) + Ties(b, n)
  {
    if a == [] {
      assert a + b == b;
    } else {
      var h := if Total(a[0]) == n then [a[0]] else [];
      assert (a + b)[0] == a[0] && (a + b)[1..] == a[1..] + b;
      assert Ties(a + b, n) == h + Ties(a[1..] + b, n);
      TiesConcat(a[1..], b, n);
      assert h + (Ties(a[1..], n) + Ties(b, n)) == (h + Ties(a[1..], n)) + Ties(b, n);
    }
  }

  lemma {:induction false} TiesNone(s: seq<LostarkSchedule>, n: nat)
    requires forall j :: 0 <= j < |s| ==> Total(s[j]) > n
    ensures Ties(s, n) == []
  {
    if s != [] {
      TiesNone(s[1..], n);
    }
  }

  /**
   * Stability: among sign-ups with equal totals the sorted roster keeps
   * their input order.
   */
  lemma InsertTies(x: LostarkSchedule, t: seq<LostarkSchedule>, n: nat)
    ensures Ties(Insert(x, t), n) == Ties([x] + t, n)
  {
    var k := InsertPos(x, t);
    var lo, hi := t[..k], t[k..];
    assert t == lo + hi;
    assert Insert(x, t) == (lo + [x]) + hi;
    TiesConcat(lo + [x], hi, n);
    TiesConcat(lo, [x], n);
    TiesConcat(lo, hi, n);
    TiesConcat([x], t, n);
    assert Ties([x], n) == (if Total(x) == n then [x] else []) by {
      assert [x][1..] == [];
    }
    var tl, tx, th := Ties(lo, n), Ties([x], n), Ties(hi, n);
    assert Ties(Insert(x, t), n) == (tl + tx) + th;
    assert Ties([x] + t, n) == tx + (tl + th);
    if Total(x) == n {
      TiesNone(lo, n);
    } else {
      assert tx == [];
    }
  }

  lemma {:induction false} SortByTotalStable(s: seq<LostarkSchedule>, n: nat)
    ensures Ties(SortByTotal(s), n) == Ties(s, n)
  {
    if s != [] {
      var x, t := s[0], SortByTotal(s[1..]);
      assert SortByTotal(s) == Insert(x, t);
      InsertTies(x, t, n);
      SortByTotalStable(s[1..], n);
      TiesConcat([x], t, n);
      TiesConcat([x], s[1..], n);
      assert s == [x] + s[1..];
    }
  }

  /** `n` copies of `e`, one per iteration of a counted `for` loop. */
  function Repeat(e: ScheduleUser, n: nat): (r: seq<ScheduleUser>)
    ensures |r| == n
    ensures forall i :: 0 <= i < n ==> r[i] == e
  {
    if n == 0 then [] else Repeat(e, n - 1) + [e]
  }

  /** The entries emitted for one sign-up: mercy first, then dps1, then dps2. */
  function UserEntries(u: LostarkSchedule): (r: seq<ScheduleUser>)
    ensures |r| == Total(u)
    ensures forall i :: 0 <= i < u.mercy ==> r[i] == ScheduleUser(u, Mercy)
    ensures forall i :: u.mercy <= i < u.mercy + u.dps1 ==> r[i] == ScheduleUser(u, Dps1)
    ensures forall i :: u.mercy + u.dps1 <= i < |r| ==> r[i] == ScheduleUser(u, Dps2)
  {
    Repeat(ScheduleUser(u, Mercy), u.mercy)
    + Repeat(ScheduleUser(u, Dps1), u.dps1)
    + Repeat(ScheduleUser(u, Dps2), u.dps2)
  }

  /** All entries emitted for the roster `ps`, sign-up after sign-up. */
  function EntryStream(ps: seq<LostarkSchedule>): (r: seq<ScheduleUser>)
    ensures |r| == SumTotals(ps)
  {
    if ps == [] then [] else EntryStream(ps[..|ps| - 1]) + UserEntries(ps[|ps| - 1])
  }

  /** Slots for the roles in `roles` that sign-ups with QQ `qq` committed, summed over `ps`. */
  function Declared(ps: seq<LostarkSchedule>, qq: string, roles: set<Role>): nat
  {
    if ps == [] then 0
    else
      Declared(ps[..|ps| - 1], qq, roles)
      + (if ps[|ps| - 1].qq == qq then RoleCount(ps[|ps| - 1], roles) else 0)
  }

  /** Sum of `dps1 + dps2 + mercy` over `ps`. */
  function SumTotals(ps: seq<LostarkSchedule>): nat
  {
    if ps == [] then 0 else SumTotals(ps[..|ps| - 1]) + Total(ps[|ps| - 1])
  }

  lemma {:induction false} DeclaredConcat(a: seq<LostarkSchedule>, b: seq<LostarkSchedule>, qq: string, roles: set<Role>)
    ensures Declared(a + b, qq, roles) == Declared(a, qq, roles) + Declared(b, qq, roles)
    ensures SumTotals(a + b) == SumTotals(a) + SumTotals(b)
    decreases |b|
  {
    if b == [] {
      assert a + b == a;
    } else {
      assert (a + b)[..|a + b| - 1] == a + b[..|b| - 1];
      DeclaredConcat(a, b[..|b| - 1], qq, roles);
    }
  }

  /** Sorting moves sign-ups but does not change what they committed. */
  lemma InsertDeclared(x: LostarkSchedule, t: seq<LostarkSchedule>, qq: string, roles: set<Role>)
    ensures Declared(Insert(x, t), qq, roles) == Declared([x] + t, qq, roles)
    ensures SumTotals(Insert(x, t)) == SumTotals([x] + t)
  {
    var k := InsertPos(x, t);
    assert t == t[..k] + t[k..];
    DeclaredConcat(t[..k] + [x], t[k..], qq, roles);
    DeclaredConcat(t[..k], [x], qq, roles);
    DeclaredConcat(t[..k], t[k..], qq, roles);
    DeclaredConcat([x], t, qq, roles);
  }

  lemma {:induction false} SortByTotalDeclared(s: seq<LostarkSchedule>, qq: string, roles: set<Role>)
    ensures Declared(SortByTotal(s), qq, roles) == Declared(s, qq, roles)
    ensures SumTotals(SortByTotal(s)) == SumTotals(s)
  {
    if s != [] {
      var x, t := s[0], SortByTotal(s[1..]);
      assert SortByTotal(s) == Insert(x, t);
      InsertDeclared(x, t, qq, roles);
      SortByTotalDeclared(s[1..], qq, roles);
      DeclaredConcat([x], t, qq, roles);
      DeclaredConcat([x], s[1..], qq, roles);
      assert s == [x] + s[1..];
    }
  }

  /** A sign-up's own slots are part of what its QQ declared. */
  lemma {:induction false} DeclaredCoversMember(ps: seq<LostarkSchedule>, u: LostarkSchedule, roles: set<Role>)
    requires u in ps
    ensures Declared(ps, u.qq, roles) >= RoleCount(u, roles)
  {
    var last := ps[|ps| - 1];
    if last != u {
      assert ps == ps[..|ps| - 1] + [last];
      DeclaredCoversMember(ps[..|ps| - 1], u, roles);
    }
  }
}
