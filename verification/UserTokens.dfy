/**
 Users of one token. try_effect_token maps the token of every user that is read in, and the letters
 NULL are the only token that it leaves out; a database that has no token for a user gives the
 empty one. So two users of one token in the database are one mapping too many, and the reference
 of the mapping that was there before is never given back.
 */
module UserTokens {
  import opened Bytes
  import opened Users

  /** No two users in the database have one token, but for those that have the letters NULL. */
  ghost predicate Apart(db: map<Text, Row>) {
    forall m, n :: m in db && n in db && m != n ==> db[m].token != db[n].token || db[m].token == NO_TOKEN
  }

  // ---- Two users of one token ----

  lemma FoundFirst(s: State, m: Text, row: Row, a: Ref, now: int)
    requires Safe(s) && m !in s.users
    ensures ByName(s, m, Some(row), a, now).0 == Get(Effect(Added(s, m, row, a, now), a, now), a, now)
    ensures ByName(s, m, Some(row), a, now).1 == Some(a)
  {
  }

  /** What finding a user who is not in memory leaves, unless it has no token. */
  lemma FoundIsMapped(s: State, m: Text, row: Row, a: Ref, now: int)
    requires Safe(s) && m !in s.users && row.token != NO_TOKEN
    ensures var t := ByName(s, m, Some(row), a, now).0;
      && t.heap.Keys == s.heap.Keys + {a} && t.users == s.users[m := a] && t.tokens == s.tokens[row.token := a]
      && t.heap[a].token == row.token && forall q :: q in s.heap && q != a ==> t.heap[q] == s.heap[q]
  {
  }

  /** Reading in a user whose token is mapped to another makes the counts wrong, also when its reference is given back. */
  lemma MappedTokenUnbalances(s: State, n: Text, row: Row, b: Ref, now: int)
    requires Safe(s) && Balanced(s) && n !in s.users && b !in s.heap && row.token != NO_TOKEN && row.token in s.tokens
    ensures var t := ByName(s, n, Some(row), b, now).0;
      s.tokens[row.token] in t.heap && t.heap[s.tokens[row.token]].useCnt == References(t, s.tokens[row.token]) + 1
    ensures !Balanced(ByName(s, n, Some(row), b, now).0)
  {
    var v, t := s.tokens[row.token], ByName(s, n, Some(row), b, now).0;
    CountIs(s, v);
    FoundIsMapped(s, n, row, b, now);
    FoundFirst(s, n, row, b, now);
    assert Mapped(s, v) && !Mapped(t, v);
  }

  /**
     The first two users of one token to be found, as the four of mysql_db.sql are who have none: the second
     takes over the mapping, and the record of the first keeps a count for it.
   */
  lemma SharedTokenUnbalances(s: State, m: Text, n: Text, row: Row, row': Row, a: Ref, b: Ref, now: int)
    requires Quiet(s) && m != n && m !in s.users && n !in s.users
    requires a != b && a !in s.heap && b !in s.heap
    requires row.token == row'.token != NO_TOKEN && FreshToken(s, a, row.token)
    ensures Safe(ByName(s, m, Some(row), a, now).0) && Balanced(ByName(s, m, Some(row), a, now).0)
    ensures !Balanced(ByName(ByName(s, m, Some(row), a, now).0, n, Some(row'), b, now).0)
  {
    hide Safe, Balanced, References, DistinctTokens, ByName, FreshToken, Grows;
    ByNameKeeps(s, m, Some(row), a, now);
    FoundIsMapped(s, m, row, a, now);
    MappedTokenUnbalances(ByName(s, m, Some(row), a, now).0, n, row', b, now);
  }

  // ---- Runs ----

  /**
   A request that finds a user by name and comes to nothing, as a seed request without random bytes does;
   `up` is whether mysql answers.
   */
  datatype Lookup = Lookup(name: Text, up: bool, addr: Ref, now: int)

  ghost function RowOf(db: map<Text, Row>, l: Lookup): Option<Row> {
    if l.up && l.name in db then Some(db[l.name]) else None
  }

  /** get_user_by_name and user_put of what it finds */
  ghost function Looked(s: State, db: map<Text, Row>, l: Lookup): State
    requires Safe(s)
  {
    var (t, found) := ByName(s, l.name, RowOf(db, l), l.addr, l.now);
    if found.Some? && found.value in t.heap then Put(t, found.value) else t
  }

  /** A run of lookups from one state to another; malloc gives an address that is not in use. */
  ghost predicate Run(s: State, db: map<Text, Row>, ls: seq<Lookup>, t: State)
    decreases |ls|
  {
    if ls == [] then t == s
    else Safe(s) && ls[0].addr !in s.heap && Run(Looked(s, db, ls[0]), db, ls[1..], t)
  }

  /** No users in memory. */
  ghost const NOBODY := State(map[], map[], map[], {}, multiset{})

  /** Counts stay exact over every run of lookups if and only if no two users in the database share a token. */
  lemma CountsStayExactIff(db: map<Text, Row>)
    ensures (forall ls, t :: Run(NOBODY, db, ls, t) ==> Balanced(t)) <==> Apart(db)
  {
    hide Run, Balanced, Quiet;
    if Apart(db) {
      NobodyIsQuiet();
      forall ls, t | Run(NOBODY, db, ls, t) ensures Balanced(t) {
        RunKeeps(NOBODY, db, ls, t);
        QuietIsBalanced(t);
      }
    } else {
      var m, n :| m in db && n in db && m != n && db[m].token == db[n].token != NO_TOKEN;
      var ls, t := SharedTokenRun(db, m, n);
    }
  }

  lemma NobodyIsQuiet()
    ensures Quiet(NOBODY)
  {
  }

  lemma QuietIsBalanced(s: State)
    requires Quiet(s)
    ensures Balanced(s) && Safe(s)
  {
  }

  /** Every record has the token of its user in the database. */
  ghost predicate FromRows(s: State, db: map<Text, Row>) {
    forall r :: r in s.heap ==> s.heap[r].username in db && s.heap[r].token == db[s.heap[r].username].token
  }

  lemma {:induction false} RunKeeps(s: State, db: map<Text, Row>, ls: seq<Lookup>, t: State)
    requires Apart(db) && Quiet(s) && FromRows(s, db) && Run(s, db, ls, t)
    ensures Quiet(t) && FromRows(t, db)
    decreases |ls|
  {
    hide Apart, Quiet, FromRows, Looked;
    if ls != [] {
      RowsAreSound(s, db, ls[0]);
      LookedKeeps(s, db, ls[0]);
      RunKeeps(Looked(s, db, ls[0]), db, ls[1..], t);
    }
  }

  lemma RowsAreSound(s: State, db: map<Text, Row>, l: Lookup)
    requires Apart(db) && Safe(s) && FromRows(s, db) && l.addr !in s.heap
    ensures l.name in s.users || Sound(s, RowOf(db, l), l.addr)
  {
  }

  /** A lookup takes no reference and reads in no token but that of its user. */
  lemma LookedKeeps(s: State, db: map<Text, Row>, l: Lookup)
    requires Quiet(s) && (l.name in s.users || Sound(s, RowOf(db, l), l.addr))
    ensures Quiet(Looked(s, db, l)) && Looked(s, db, l).held == s.held
    ensures FromRows(s, db) ==> FromRows(Looked(s, db, l), db)
  {
    hide Safe, Balanced, DistinctTokens, References, FreshToken, ByName, Grows, FromRows, Put;
    var row := if l.name in s.users then None else RowOf(db, l);
    assert Sound(s, row, l.addr);
    if l.name in s.users {
      RowOfKnown(s, l.name, RowOf(db, l), l.addr, l.now);
    }
    ByNameKeeps(s, l.name, row, l.addr, l.now);
    var (t, found) := ByName(s, l.name, row, l.addr, l.now);
    if found.Some? {
      ReleaseKeeps(t, found.value);
      PutKeeps(t, found.value);
      assert t.held - multiset{found.value} == s.held;
    }
    if FromRows(s, db) {
      FoundFromRows(s, db, l.name, row, l.addr, l.now);
      if found.Some? {
        PutFromRows(t, db, found.value);
      }
    }
  }

  /** The database is not asked for a user who is in memory. */
  lemma RowOfKnown(s: State, name: Text, row: Option<Row>, addr: Ref, now: int)
    requires Safe(s) && name in s.users
    ensures ByName(s, name, row, addr, now) == ByName(s, name, None, addr, now)
  {
  }

  lemma FoundFromRows(s: State, db: map<Text, Row>, name: Text, row: Option<Row>, addr: Ref, now: int)
    requires Safe(s) && FromRows(s, db) && (row.Some? ==> name in db && row.value == db[name])
    ensures FromRows(ByName(s, name, row, addr, now).0, db)
  {
  }

  lemma PutFromRows(s: State, db: map<Text, Row>, r: Ref)
    requires r in s.heap && FromRows(s, db)
    ensures FromRows(Put(s, r), db)
  {
  }

  // ---- The run that goes wrong ----

  /** A user whose token is nobody's in memory is read in, mapped and let go of. */
  lemma LookedNew(s: State, db: map<Text, Row>, l: Lookup)
    requires Quiet(s) && l.up && l.name in db && l.name !in s.users && Sound(s, Some(db[l.name]), l.addr)
    requires db[l.name].token != NO_TOKEN
    ensures var t := Looked(s, db, l);
      && Quiet(t) && t.heap.Keys == s.heap.Keys + {l.addr} && t.users == s.users[l.name := l.addr]
      && t.tokens == s.tokens[db[l.name].token := l.addr]
  {
    hide Safe, Balanced, DistinctTokens, References, FreshToken, ByName, Grows, Put;
    ByNameKeeps(s, l.name, RowOf(db, l), l.addr, l.now);
    FoundFirst(s, l.name, db[l.name], l.addr, l.now);
    FoundIsMapped(s, l.name, db[l.name], l.addr, l.now);
    var t := ByName(s, l.name, RowOf(db, l), l.addr, l.now).0;
    ReleaseKeeps(t, l.addr);
    PutLeavesTokens(t, l.addr);
  }

  lemma PutLeavesTokens(s: State, r: Ref)
    requires r in s.heap
    ensures Put(s, r).tokens == s.tokens
  {
  }

  lemma PutLeavesOthers(s: State, r: Ref, v: Ref)
    requires r in s.heap && v in s.heap && v != r
    ensures v in Put(s, r).heap && Put(s, r).heap[v] == s.heap[v] && References(Put(s, r), v) == References(s, v)
  {
  }

  /** Two lookups, of users with one token, and the counts are wrong. */
  lemma SharedTokenRun(db: map<Text, Row>, m: Text, n: Text) returns (ls: seq<Lookup>, t: State)
    requires m in db && n in db && m != n && db[m].token == db[n].token != NO_TOKEN
    ensures Run(NOBODY, db, ls, t) && !Balanced(t)
  {
    hide Quiet, Looked, Balanced;
    var first, second := Lookup(m, true, 0, 0), Lookup(n, true, 1, 0);
    NobodyIsQuiet();
    LookedNew(NOBODY, db, first);
    var s := Looked(NOBODY, db, first);
    QuietIsBalanced(s);
    SecondLookup(s, db, second);
    ls, t := [first, second], Looked(s, db, second);
    TwoLookups(NOBODY, db, first, second);
  }

  lemma TwoLookups(s: State, db: map<Text, Row>, first: Lookup, second: Lookup)
    requires Safe(s) && first.addr !in s.heap
    requires Safe(Looked(s, db, first)) && second.addr !in Looked(s, db, first).heap
    ensures Run(s, db, [first, second], Looked(Looked(s, db, first), db, second))
  {
    hide Safe, Looked;
    var u := Looked(s, db, first);
    assert Run(Looked(u, db, second), db, [], Looked(u, db, second));
    assert [first, second][1..] == [second] && [second][1..] == [];
    assert Run(u, db, [second], Looked(u, db, second));
  }

  lemma SecondLookup(s: State, db: map<Text, Row>, l: Lookup)
    requires Safe(s) && Balanced(s) && l.up && l.name in db && l.name !in s.users && l.addr !in s.heap
    requires db[l.name].token != NO_TOKEN && db[l.name].token in s.tokens
    ensures !Balanced(Looked(s, db, l))
  {
    var row, v := db[l.name], s.tokens[db[l.name].token];
    MappedTokenUnbalances(s, l.name, row, l.addr, l.now);
    FoundFirst(s, l.name, row, l.addr, l.now);
    FoundIsMapped(s, l.name, row, l.addr, l.now);
    var t := ByName(s, l.name, Some(row), l.addr, l.now).0;
    assert v in s.heap;
    PutLeavesOthers(t, l.addr, v);
    var u := Looked(s, db, l);
    assert u == Put(t, l.addr);
    hide Safe, ByName, References, Looked, Put;
    if Balanced(u) {
      CountIs(u, v);
    }
  }

  // ---- What holds for every database ----

  /** No pointer dangles, and every record is counted at least for its timer. */
  ghost predicate Standing(s: State) {
    Safe(s) && s.queue == s.heap.Keys && forall r :: r in s.heap ==> s.heap[r].useCnt >= 1
  }

  /** Whatever tokens users share, no lookup leaves a dangling pointer. */
  lemma {:induction false} RunStands(s: State, db: map<Text, Row>, ls: seq<Lookup>, t: State)
    requires Standing(s) && Run(s, db, ls, t)
    ensures Standing(t)
    decreases |ls|
  {
    hide Standing, Looked, Safe;
    if ls != [] {
      LookedStands(s, db, ls[0]);
      RunStands(Looked(s, db, ls[0]), db, ls[1..], t);
    }
  }

  lemma LookedStands(s: State, db: map<Text, Row>, l: Lookup)
    requires Standing(s) && l.addr !in s.heap
    ensures Standing(Looked(s, db, l))
  {
    hide Safe, Effect, Get, Added;
    if l.name in s.users {
      UserOfName(s, l.name);
      GetStands(s, s.users[l.name], l.now);
      PutStands(Get(s, s.users[l.name], l.now), s.users[l.name]);
    } else if l.up && l.name in db {
      AddedStands(s, l.name, db[l.name], l.addr, l.now);
      var a := Added(s, l.name, db[l.name], l.addr, l.now);
      EffectStands(a, l.addr, l.now);
      GetStands(Effect(a, l.addr, l.now), l.addr, l.now);
      PutStands(Get(Effect(a, l.addr, l.now), l.addr, l.now), l.addr);
    }
  }

  lemma NobodyStands()
    ensures Standing(NOBODY)
  {
  }

  lemma FoundIsThere(s: State, name: Text, row: Option<Row>, addr: Ref, now: int)
    requires Safe(s)
    ensures var (t, found) := ByName(s, name, row, addr, now);
      found.Some? ==> found.value in t.heap
  {
  }

  lemma AddedStands(s: State, name: Text, row: Row, addr: Ref, now: int)
    requires Standing(s) && name !in s.users && addr !in s.heap
    ensures Standing(Added(s, name, row, addr, now)) && addr in Added(s, name, row, addr, now).heap
  {
    AddedIsSafe(s, name, row, addr, now);
    hide Safe;
  }

  lemma EffectStands(s: State, r: Ref, now: int)
    requires Standing(s) && r in s.heap
    ensures Standing(Effect(s, r, now)) && r in Effect(s, r, now).heap
  {
    EffectIsSafe(s, r, now);
    hide Safe;
  }

  lemma GetStands(s: State, r: Ref, now: int)
    requires Standing(s) && r in s.heap
    ensures var t := Get(s, r, now);
      Standing(t) && r in t.heap && t.heap[r].useCnt > 1 && r in t.held
  {
    GetIsSafe(s, r, now);
    hide Safe;
  }

  lemma PutStands(s: State, r: Ref)
    requires Standing(s) && r in s.heap && s.heap[r].useCnt > 1
    ensures Standing(Put(s, r))
  {
    assert forall q :: q in s.held - multiset{r} ==> q in s.heap;
    hide Safe, Put;
    var u := s.heap[r].(useCnt := s.heap[r].useCnt - 1);
    RecountedIsSafe(s, r, u, s.held - multiset{r});
    PutIs(s, r);
  }

  lemma PutIs(s: State, r: Ref)
    requires r in s.heap && s.heap[r].useCnt != 1
    ensures Put(s, r) == s.(heap := s.heap[r := s.heap[r].(useCnt := s.heap[r].useCnt - 1)], held := s.held - multiset{r})
  {
  }
}
