/**
 The lifetime of user records, users.c and tokens.c: a record is counted by the timer queue, by the
 token map and by the handler that is running, and it is freed when the last of them lets go.

 Memory is explicit: a record is a value at an address, and freeing it takes the address away. The
 timer queue is the set of records whose timer is on the list of timer.c. What the database,
 the random pool, malloc and the clock give are arguments.
 */
module Users {
  import opened Bytes

  const SERVER_USER_UNUSED_TIMEOUT := 120

  /** The token that stands for none: the letters NULL. */
  const NO_TOKEN: Text := [0x4E, 0x55, 0x4C, 0x4C]

  type Ref = nat

  /** struct user */
  datatype User = User(
    username: Text, password: Text, token: Text, isOnline: bool, isSeedExisted: bool,
    useCnt: int, timeout: int, delaySec: int)

  /** What the database knows of a user; a NULL token is read as an empty one. */
  datatype Row = Row(password: Text, token: Text)

  // ---- The state of the server, as far as users go ----

  datatype State = State(
    heap: map<Ref, User>, users: map<Text, Ref>, tokens: map<Text, Ref>, queue: set<Ref>, held: multiset<Ref>)

  predicate Mapped(s: State, r: Ref)
    requires r in s.heap
  {
    s.heap[r].token in s.tokens && s.tokens[s.heap[r].token] == r
  }

  /** The references to a record: one of the timer queue, one of the token map, and those of the handler. */
  ghost function References(s: State, r: Ref): nat
    requires r in s.heap
  {
    (if r in s.queue then 1 else 0) + (if Mapped(s, r) then 1 else 0) + s.held[r]
  }

  /**
   No pointer dangles: what the maps, the queue and the handler point to is allocated, records are
   mapped under their own names and tokens, and users_map holds exactly the allocated records.
   */
  ghost predicate Safe(s: State) {
    && (forall n :: n in s.users ==> s.users[n] in s.heap && s.heap[s.users[n]].username == n)
    && (forall r :: r in s.heap ==> s.heap[r].username in s.users && s.users[s.heap[r].username] == r)
    && (forall t :: t in s.tokens ==> s.tokens[t] in s.heap && s.heap[s.tokens[t]].token == t)
    && NO_TOKEN !in s.tokens
    && (forall r :: r in s.queue ==> r in s.heap)
    && (forall r :: r in s.held ==> r in s.heap)
  }

  /** Every count is exactly the number of references. */
  ghost predicate Balanced(s: State) {
    forall r :: r in s.heap ==> s.heap[r].useCnt == References(s, r)
  }

  /** No two records have one token, except that several may have none. */
  ghost predicate DistinctTokens(s: State) {
    forall q, r :: q in s.heap && r in s.heap && q != r ==> s.heap[q].token != s.heap[r].token || s.heap[q].token == NO_TOKEN
  }

  /** A token that no record but `r` has. */
  ghost predicate FreshToken(s: State, r: Ref, token: Text) {
    token == NO_TOKEN || forall q :: q in s.heap && q != r ==> s.heap[q].token != token
  }

  ghost predicate Valid(s: State) {
    Safe(s) && Balanced(s) && DistinctTokens(s)
  }

  /** Between requests every record has its timer on the queue. */
  ghost predicate Quiet(s: State) {
    Valid(s) && s.queue == s.heap.Keys
  }

  /** In a valid state a token leads to the record that has it, and to no other. */
  lemma TokenFindsOwner(s: State, r: Ref)
    requires Safe(s) && DistinctTokens(s) && r in s.heap && s.heap[r].token in s.tokens
    ensures Mapped(s, r)
  {
    assert s.heap[s.tokens[s.heap[r].token]].token == s.heap[r].token;
  }

  // ---- References ----

  /** The record with a reference more, and its timer started anew. */
  function Touched(u: User, now: int): User {
    u.(useCnt := u.useCnt + 1, timeout := now + u.delaySec)
  }

  /** user_get */
  ghost function Get(s: State, r: Ref, now: int): State
    requires r in s.heap
  {
    s.(heap := s.heap[r := Touched(s.heap[r], now)], held := s.held + multiset{r})
  }

  /** Another count or timer of a record, and other references that the handler holds to records. */
  lemma RecountedIsSafe(s: State, r: Ref, u: User, held: multiset<Ref>)
    requires Safe(s) && r in s.heap && SameUser(s.heap[r], u)
    requires forall q :: q in held ==> q in s.heap
    ensures Safe(s.(heap := s.heap[r := u], held := held))
  {
  }

  lemma GetIsSafe(s: State, r: Ref, now: int)
    requires Safe(s) && r in s.heap
    ensures Safe(Get(s, r, now))
  {
    assert forall q :: q in s.held + multiset{r} ==> q in s.heap;
    hide Safe;
    RecountedIsSafe(s, r, Touched(s.heap[r], now), s.held + multiset{r});
  }

  /** Records that keep their tokens keep them apart. */
  lemma TokensStayDistinct(s: State, t: State)
    requires DistinctTokens(s)
    requires forall q :: q in t.heap ==> q in s.heap && t.heap[q].token == s.heap[q].token
    ensures DistinctTokens(t)
  {
  }

  lemma GetKeeps(s: State, r: Ref, now: int)
    requires Valid(s) && r in s.heap
    ensures Valid(Get(s, r, now)) && Get(s, r, now).held == s.held + multiset{r}
  {
    hide Safe, DistinctTokens;
    GetIsSafe(s, r, now);
    var t := Get(s, r, now);
    TokensStayDistinct(s, t);
    forall q | q in t.heap ensures t.heap[q].useCnt == References(t, q) {
      CountIs(s, q);
    }
  }

  /** user_put: the record goes with its last reference. */
  ghost function Put(s: State, r: Ref): State
    requires r in s.heap
  {
    var u := s.heap[r];
    if u.useCnt == 1 then s.(heap := s.heap - {r}, users := s.users - {u.username}, held := s.held - multiset{r})
    else s.(heap := s.heap[r := u.(useCnt := u.useCnt - 1)], held := s.held - multiset{r})
  }

  /** Taking the last reference to a record away, no pointer to it is left. */
  lemma LastPutIsSafe(s: State, r: Ref)
    requires Valid(s) && r in s.held && References(s, r) == 1
    ensures r in s.heap && Safe(Put(s, r)) && r !in Put(s, r).heap
    ensures r !in s.queue && !Mapped(s, r) && s.held[r] == 1
  {
    HeldIsAllocated(s, r);
    CountIs(s, r);
    hide Balanced, DistinctTokens;
    var u := s.heap[r];
    assert forall k :: k in s.tokens && s.tokens[k] == r ==> u.token == k;
    LastOutIsSafe(s, r);
  }

  /** A record that nothing points to any more but the handler and users_map can go. */
  lemma LastOutIsSafe(s: State, r: Ref)
    requires Safe(s) && r in s.heap && r !in s.queue && s.held[r] <= 1
    requires forall k :: k in s.tokens ==> s.tokens[k] != r
    ensures Safe(s.(heap := s.heap - {r}, users := s.users - {s.heap[r].username}, held := s.held - multiset{r}))
  {
  }

  lemma CountIs(s: State, r: Ref)
    requires Balanced(s) && r in s.heap
    ensures s.heap[r].useCnt == References(s, r)
  {
    hide References;
  }

  lemma HeldIsAllocated(s: State, r: Ref)
    requires Safe(s) && r in s.held
    ensures r in s.heap
  {
  }

  lemma OtherPutIsSafe(s: State, r: Ref)
    requires Valid(s) && r in s.held && References(s, r) != 1
    ensures r in s.heap && Safe(Put(s, r)) && Put(s, r).heap.Keys == s.heap.Keys
  {
    hide Balanced, DistinctTokens, References;
    CountIs(s, r);
    var u := s.heap[r];
    assert forall q :: q in s.held - multiset{r} ==> q in s.heap;
    hide Safe;
    RecountedIsSafe(s, r, u.(useCnt := u.useCnt - 1), s.held - multiset{r});
  }

  lemma PutBalanced(s: State, r: Ref)
    requires Valid(s) && r in s.held && r in s.heap
    ensures Balanced(Put(s, r)) && DistinctTokens(Put(s, r))
  {
    hide Safe, DistinctTokens;
    var t := Put(s, r);
    TokensStayDistinct(s, t);
    forall q | q in t.heap ensures t.heap[q].useCnt == References(t, q) {
      CountIs(s, q);
    }
  }

  /** Giving a reference back keeps the state valid; a record that is freed had no other pointer to it. */
  lemma PutKeeps(s: State, r: Ref)
    requires Valid(s) && r in s.held
    ensures r in s.heap && Valid(Put(s, r)) && Put(s, r).held == s.held - multiset{r}
    ensures r !in Put(s, r).heap <==> References(s, r) == 1
    ensures r !in Put(s, r).heap ==> r !in s.queue && !Mapped(s, r) && s.held[r] == 1
  {
    hide Safe, Balanced, DistinctTokens, References;
    HeldIsAllocated(s, r);
    if References(s, r) == 1 {
      LastPutIsSafe(s, r);
    } else {
      OtherPutIsSafe(s, r);
    }
    PutBalanced(s, r);
  }

  // ---- Tokens ----

  /** try_effect_token: the token map gets a reference, unless there is no token. */
  ghost function Effect(s: State, r: Ref, now: int): State
    requires r in s.heap
  {
    var u := s.heap[r];
    if u.token == NO_TOKEN then s
    else s.(heap := s.heap[r := Touched(u, now)], tokens := s.tokens[u.token := r])
  }

  /** The counts stay right exactly if the token was not mapped yet, to this record or another. */
  lemma EffectBalancedIff(s: State, r: Ref, now: int)
    requires Safe(s) && Balanced(s) && r in s.heap
    ensures Safe(Effect(s, r, now))
    ensures Balanced(Effect(s, r, now)) <==> s.heap[r].token == NO_TOKEN || s.heap[r].token !in s.tokens
  {
    EffectIsSafe(s, r, now);
    var token := s.heap[r].token;
    if token != NO_TOKEN {
      if token in s.tokens {
        RemapUnbalances(s, r, now);
      } else {
        NewMappingCounts(s, r, now);
      }
    }
  }

  lemma EffectIsSafe(s: State, r: Ref, now: int)
    requires Safe(s) && r in s.heap
    ensures Safe(Effect(s, r, now))
  {
    if s.heap[r].token != NO_TOKEN {
      GetIsSafe(s, r, now);
    }
  }

  /** A mapping that is there already is not lost, or the record that loses it keeps its count. */
  lemma RemapUnbalances(s: State, r: Ref, now: int)
    requires Safe(s) && Balanced(s) && r in s.heap && s.heap[r].token != NO_TOKEN && s.heap[r].token in s.tokens
    ensures !Balanced(Effect(s, r, now))
  {
    var t, v := Effect(s, r, now), s.tokens[s.heap[r].token];
    assert Mapped(s, v) && v in t.heap;
    assert t.heap[v].useCnt != References(t, v);
  }

  lemma NewMappingCounts(s: State, r: Ref, now: int)
    requires Balanced(s) && r in s.heap && s.heap[r].token != NO_TOKEN && s.heap[r].token !in s.tokens
    ensures Balanced(Effect(s, r, now))
  {
    var t := Effect(s, r, now);
    forall q | q in t.heap ensures t.heap[q].useCnt == References(t, q) {
      assert q in s.heap && (q != r ==> Mapped(t, q) == Mapped(s, q));
    }
  }

  lemma EffectKeeps(s: State, r: Ref, now: int)
    requires Valid(s) && r in s.heap && s.heap[r].token !in s.tokens
    ensures Valid(Effect(s, r, now)) && Effect(s, r, now).held == s.held
  {
    hide Safe, Balanced;
    EffectBalancedIff(s, r, now);
  }

  /** The part of free_token before user_put: the reference of the token map goes to the caller. */
  ghost function Unmap(s: State, r: Ref): State
    requires r in s.heap
  {
    s.(tokens := s.tokens - {s.heap[r].token}, held := s.held + multiset{r})
  }

  lemma UnmapKeeps(s: State, r: Ref)
    requires Valid(s) && r in s.heap && s.heap[r].token in s.tokens
    ensures Valid(Unmap(s, r))
  {
    UnmapIsSafe(s, r);
    TokenFindsOwner(s, r);
    var t := Unmap(s, r);
    hide Safe, DistinctTokens;
    TokensStayDistinct(s, t);
    forall q | q in t.heap ensures t.heap[q].useCnt == References(t, q) {
      CountIs(s, q);
    }
  }

  lemma UnmapIsSafe(s: State, r: Ref)
    requires Safe(s) && r in s.heap
    ensures Safe(Unmap(s, r))
  {
  }

  /** free_token */
  ghost function Free(s: State, r: Ref): State
    requires r in s.heap
  {
    Put(Unmap(s, r), r)
  }

  /** Dropping a token drops one reference and leaves those of the handler. */
  lemma FreeKeeps(s: State, r: Ref)
    requires Valid(s) && r in s.heap && s.heap[r].token in s.tokens
    ensures Valid(Free(s, r)) && Free(s, r).held == s.held
    ensures Free(s, r).tokens == s.tokens - {s.heap[r].token}
    ensures r in s.queue || r in s.held ==> r in Free(s, r).heap && Free(s, r).users == s.users && Free(s, r).heap.Keys == s.heap.Keys
  {
    hide Safe, Balanced, DistinctTokens, References, Mapped;
    UnmapKeeps(s, r);
    var t := Unmap(s, r);
    PutKeeps(t, r);
    assert t.held - multiset{r} == s.held;
    if r in s.queue || r in s.held {
      ReferencesAfterUnmap(s, r);
    }
  }

  lemma ReferencesAfterUnmap(s: State, r: Ref)
    requires Valid(s) && r in s.heap && (r in s.queue || r in s.held)
    ensures References(Unmap(s, r), r) > 1
  {
  }

  // ---- Finding users ----

  /** A record just read from the database: on users_map, its timer started, and counted once for it. */
  ghost function Added(s: State, name: Text, row: Row, addr: Ref, now: int): State {
    var u := User(name, row.password, row.token, false, false, 1, now + SERVER_USER_UNUSED_TIMEOUT, SERVER_USER_UNUSED_TIMEOUT);
    s.(heap := s.heap[addr := u], users := s.users[name := addr], queue := s.queue + {addr})
  }

  lemma AddedIsSafe(s: State, name: Text, row: Row, addr: Ref, now: int)
    requires Safe(s) && name !in s.users && addr !in s.heap
    ensures Safe(Added(s, name, row, addr, now))
  {
  }

  lemma FreshIsUnmapped(s: State, addr: Ref, token: Text)
    requires Safe(s) && addr !in s.heap && FreshToken(s, addr, token)
    ensures token !in s.tokens
  {
  }

  lemma AddedKeeps(s: State, name: Text, row: Row, addr: Ref, now: int)
    requires Valid(s) && name !in s.users && addr !in s.heap && FreshToken(s, addr, row.token)
    ensures Valid(Added(s, name, row, addr, now)) && row.token !in s.tokens
  {
    AddedIsSafe(s, name, row, addr, now);
    FreshIsUnmapped(s, addr, row.token);
    AddedBalanced(s, name, row, addr, now);
    hide Safe, Balanced, References;
  }

  lemma AddedBalanced(s: State, name: Text, row: Row, addr: Ref, now: int)
    requires Valid(s) && name !in s.users && addr !in s.heap && row.token !in s.tokens
    ensures Balanced(Added(s, name, row, addr, now))
  {
    var t := Added(s, name, row, addr, now);
    forall q | q in t.heap ensures t.heap[q].useCnt == References(t, q) {
      if q != addr {
        CountIs(s, q);
      }
    }
  }

  /** get_user_by_name: the record of a name, from memory or from the database, with a reference for the caller. */
  ghost function ByName(s: State, name: Text, row: Option<Row>, addr: Ref, now: int): (found: (State, Option<Ref>))
    requires Safe(s)
  {
    if name in s.users then (Get(s, s.users[name], now), Some(s.users[name]))
    else match row
      case None => (s, None)
      case Some(r) => (Get(Effect(Added(s, name, r, addr, now), addr, now), addr, now), Some(addr))
  }

  /** What the database and malloc owe: addresses are new, and so are the tokens of users read in. */
  ghost predicate Sound(s: State, row: Option<Row>, addr: Ref) {
    row.Some? ==> addr !in s.heap && FreshToken(s, addr, row.value.token)
  }

  /** Two states of one record that differ only in its count and its timer. */
  predicate SameUser(u: User, v: User) {
    v == u.(useCnt := v.useCnt, timeout := v.timeout)
  }

  /** Nothing is lost from one state to another: records change only in counts and timers, and what is mapped stays mapped. */
  ghost predicate Grows(s: State, t: State) {
    && (forall r :: r in s.heap ==> r in t.heap && SameUser(s.heap[r], t.heap[r]))
    && (forall n :: n in s.users ==> n in t.users && t.users[n] == s.users[n])
    && (forall k :: k in s.tokens ==> k in t.tokens && t.tokens[k] == s.tokens[k])
  }

  lemma GrowsOn(s: State, t: State, u: State)
    requires Grows(s, t) && Grows(t, u)
    ensures Grows(s, u)
  {
  }

  lemma GetGrows(s: State, r: Ref, now: int)
    requires r in s.heap
    ensures Grows(s, Get(s, r, now)) && Get(s, r, now).heap.Keys == s.heap.Keys
  {
  }

  lemma EffectGrows(s: State, r: Ref, now: int)
    requires r in s.heap && s.heap[r].token !in s.tokens
    ensures Grows(s, Effect(s, r, now)) && Effect(s, r, now).heap.Keys == s.heap.Keys && Effect(s, r, now).queue == s.queue
  {
  }

  lemma AddedGrows(s: State, name: Text, row: Row, addr: Ref, now: int)
    requires name !in s.users && addr !in s.heap
    ensures var t := Added(s, name, row, addr, now);
      Grows(s, t) && t.heap.Keys == s.heap.Keys + {addr} && t.queue == s.queue + {addr} && t.tokens == s.tokens
  {
  }

  lemma UserOfName(s: State, name: Text)
    requires Safe(s) && name in s.users
    ensures s.users[name] in s.heap && s.heap[s.users[name]].username == name
  {
  }

  /** What get_user_by_name keeps, and what it gives its caller. */
  lemma ByNameKeeps(s: State, name: Text, row: Option<Row>, addr: Ref, now: int)
    requires Quiet(s) && Sound(s, row, addr)
    ensures var (t, found) := ByName(s, name, row, addr, now);
      && Quiet(t) && Grows(s, t)
      && (found.Some? <==> name in s.users || row.Some?)
      && (found.None? ==> t == s) && (name in s.users ==> found == Some(s.users[name]))
      && (found.Some? ==> found.value in t.heap && t.heap[found.value].username == name && t.held == s.held + multiset{found.value})
  {
    hide References, Balanced, DistinctTokens, FreshToken, Safe, Grows;
    if name in s.users {
      UserOfName(s, name);
      GetKeeps(s, s.users[name], now);
      GetGrows(s, s.users[name], now);
    } else if row.Some? {
      var a := Added(s, name, row.value, addr, now);
      var b := Effect(a, addr, now);
      AddedKeeps(s, name, row.value, addr, now);
      AddedGrows(s, name, row.value, addr, now);
      EffectKeeps(a, addr, now);
      EffectGrows(a, addr, now);
      GetKeeps(b, addr, now);
      GetGrows(b, addr, now);
      GrowsOn(s, a, b);
      GrowsOn(s, b, Get(b, addr, now));
    } else {
      GrowsToItself(s);
    }
  }

  lemma GrowsToItself(s: State)
    ensures Grows(s, s)
  {
  }

  /** Giving back a reference that a handler took leaves the record, for its timer is running. */
  lemma ReleaseKeeps(s: State, r: Ref)
    requires Quiet(s) && r in s.held && r in s.heap
    ensures var t := Put(s, r);
      && Quiet(t) && r in t.heap && t.heap == s.heap[r := s.heap[r].(useCnt := s.heap[r].useCnt - 1)]
      && t.users == s.users && Grows(s, t)
  {
    hide Safe, Balanced, DistinctTokens;
    PutKeeps(s, r);
  }

  // ---- New tokens ----

  /** The record under another token, which it has not been mapped under. */
  ghost function Renamed(s: State, r: Ref, token: Text): State
    requires r in s.heap
  {
    s.(heap := s.heap[r := s.heap[r].(token := token)])
  }

  lemma RenamedIsSafe(s: State, r: Ref, token: Text)
    requires Safe(s) && r in s.heap && s.heap[r].token !in s.tokens
    requires token != NO_TOKEN && FreshToken(s, r, token)
    ensures Safe(Renamed(s, r, token)) && token !in s.tokens
  {
  }

  lemma RenamedIsDistinct(s: State, r: Ref, token: Text)
    requires DistinctTokens(s) && r in s.heap && FreshToken(s, r, token)
    ensures DistinctTokens(Renamed(s, r, token))
  {
  }

  lemma RenamedKeeps(s: State, r: Ref, token: Text)
    requires Valid(s) && r in s.heap && s.heap[r].token !in s.tokens
    requires token != NO_TOKEN && FreshToken(s, r, token)
    ensures Valid(Renamed(s, r, token)) && (token !in s.tokens)
  {
    RenamedIsSafe(s, r, token);
    RenamedIsDistinct(s, r, token);
    var t := Renamed(s, r, token);
    hide Safe, DistinctTokens, FreshToken;
    forall q | q in t.heap ensures t.heap[q].useCnt == References(t, q) {
      CountIs(s, q);
    }
  }

  /** alloc_new_token: the old token is dropped, and the new one mapped once the database has it. */
  ghost function NewToken(s: State, r: Ref, random: Option<Text>, stored: bool, now: int): State
    requires Valid(s) && r in s.heap && r in s.queue
  {
    if random.None? then s
    else
      FreeIfMapped(s, r);
      var a := if s.heap[r].token in s.tokens then Free(s, r) else s;
      var b := Renamed(a, r, random.value);
      if stored then Effect(b, r, now) else b
  }

  lemma FreeIfMapped(s: State, r: Ref)
    requires Valid(s) && r in s.heap && r in s.queue
    ensures s.heap[r].token in s.tokens ==> r in Free(s, r).heap
  {
    if s.heap[r].token in s.tokens {
      FreeKeeps(s, r);
    }
  }

  lemma FreeLeavesToken(s: State, r: Ref)
    requires Valid(s) && r in s.heap && r in s.queue && s.heap[r].token in s.tokens
    ensures var t := Free(s, r);
      && r in t.heap && t.heap[r] == s.heap[r].(useCnt := s.heap[r].useCnt - 1) && t.queue == s.queue
      && forall q :: q in s.heap && q != r ==> q in t.heap && t.heap[q] == s.heap[q]
  {
    hide Safe, Balanced, DistinctTokens, References;
    FreeKeeps(s, r);
  }

  lemma NewTokenKeeps(s: State, r: Ref, random: Option<Text>, stored: bool, now: int)
    requires Quiet(s) && r in s.heap
    requires random.Some? ==> random.value != NO_TOKEN && FreshToken(s, r, random.value)
    ensures var t := NewToken(s, r, random, stored, now);
      && Quiet(t) && t.held == s.held && t.users == s.users && t.heap.Keys == s.heap.Keys
      && (forall q :: q in s.heap && q != r ==> t.heap[q] == s.heap[q])
      && (random.Some? ==> t.heap[r].token == random.value)
      && (random.Some? && stored ==> t.tokens == (s.tokens - {s.heap[r].token})[random.value := r])
      && (random.None? ==> t == s)
  {
    hide Safe, Balanced, DistinctTokens, References;
    if random.Some? {
      var a := s;
      if s.heap[r].token in s.tokens {
        FreeKeeps(s, r);
        FreeLeavesToken(s, r);
        a := Free(s, r);
      }
      assert a.heap.Keys == s.heap.Keys && a.tokens == s.tokens - {s.heap[r].token};
      RenamedKeeps(a, r, random.value);
      if stored {
        EffectKeeps(Renamed(a, r, random.value), r, now);
      }
    }
  }

  // ---- Expiry ----

  /** del_timer and user_memory_free_handler: the reference of the queue goes to the handler, which drops the token and itself. */
  ghost function Expire(s: State, r: Ref): State
    requires Valid(s) && r in s.queue
  {
    var a := Unqueued(s, r);
    UnqueuedKeeps(s, r);
    FreeIfHeld(a, r);
    Put(if a.heap[r].token in a.tokens then Free(a, r) else a, r)
  }

  ghost function Unqueued(s: State, r: Ref): State {
    s.(queue := s.queue - {r}, held := s.held + multiset{r})
  }

  lemma UnqueuedIsSafe(s: State, r: Ref)
    requires Safe(s) && r in s.heap
    ensures Safe(Unqueued(s, r))
  {
  }

  lemma UnqueuedKeeps(s: State, r: Ref)
    requires Valid(s) && r in s.queue
    ensures r in s.heap && Valid(Unqueued(s, r)) && r in Unqueued(s, r).held
  {
    assert r in s.heap;
    UnqueuedIsSafe(s, r);
    var t := Unqueued(s, r);
    hide Safe, DistinctTokens;
    TokensStayDistinct(s, t);
    forall q | q in t.heap ensures t.heap[q].useCnt == References(t, q) {
      CountIs(s, q);
    }
  }

  lemma FreeIfHeld(s: State, r: Ref)
    requires Valid(s) && r in s.heap && r in s.held
    ensures s.heap[r].token in s.tokens ==> r in Free(s, r).heap
  {
    if s.heap[r].token in s.tokens {
      FreeKeeps(s, r);
    }
  }

  lemma NoReferences(s: State, r: Ref)
    requires Valid(s) && r in s.heap && r !in s.queue && s.heap[r].token !in s.tokens && s.held[r] == 1
    ensures References(s, r) == 1
  {
  }

  /** When the timer of a record that no handler holds expires, the record is freed, and its name and token are forgotten. */
  lemma ExpireFrees(s: State, r: Ref)
    requires Valid(s) && r in s.queue && r !in s.held
    ensures var t := Expire(s, r);
      && r in s.heap && Valid(t) && t.held == s.held && t.queue == s.queue - {r}
      && t.heap == s.heap - {r} && t.users == s.users - {s.heap[r].username} && t.tokens == s.tokens - {s.heap[r].token}
  {
    hide Safe, Balanced, DistinctTokens, References, Mapped;
    var a := Unqueued(s, r);
    UnqueuedKeeps(s, r);
    var b := a;
    if a.heap[r].token in a.tokens {
      FreeKeeps(a, r);
      FreeFrame(a, r);
      b := Free(a, r);
    }
    assert b.tokens == s.tokens - {s.heap[r].token};
    NoReferences(b, r);
    PutKeeps(b, r);
    assert b.held - multiset{r} == s.held;
    PutFrame(b, r);
  }

  lemma FreeFrame(s: State, r: Ref)
    requires Valid(s) && r in s.held && r in s.heap && s.heap[r].token in s.tokens
    ensures var t := Free(s, r);
      && r in t.heap && t.heap[r].token == s.heap[r].token && t.heap[r].username == s.heap[r].username
      && t.heap - {r} == s.heap - {r} && t.users == s.users && t.queue == s.queue
  {
    hide Safe, Balanced, DistinctTokens, References;
    FreeKeeps(s, r);
  }

  lemma PutFrame(s: State, r: Ref)
    requires r in s.heap && r !in Put(s, r).heap
    ensures var t := Put(s, r);
      t.heap == s.heap - {r} && t.users == s.users - {s.heap[r].username} && t.tokens == s.tokens && t.queue == s.queue
  {
  }
}
