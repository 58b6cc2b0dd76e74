/**
 How long user records stay: every request that finds a user starts its timer again, users.c:28-36 with
 timer.c:48-53, and nothing else does. The clock of a state says when the record of each name is due.
 */
module UserTimes {
  import opened Bytes
  import opened Users

  /** Every record has the delay of two minutes. */
  ghost predicate Punctual(s: State) {
    forall r :: r in s.heap ==> s.heap[r].delaySec == 120
  }

  ghost function Clock(s: State): (c: map<Text, int>) {
    map n | n in s.users && s.users[n] in s.heap :: s.heap[s.users[n]].timeout
  }

  /** The clock after some names were found at `now`. */
  ghost function Stamped(c: map<Text, int>, names: set<Text>, now: int): map<Text, int> {
    map n | n in c.Keys + names :: if n in names then now + 120 else c[n]
  }

  lemma StampedNone(c: map<Text, int>, now: int)
    ensures Stamped(c, {}, now) == c
  {
  }

  lemma StampedTwice(c: map<Text, int>, a: set<Text>, b: set<Text>, now: int)
    ensures Stamped(Stamped(c, a, now), b, now) == Stamped(c, a + b, now)
  {
  }

  // ---- What the steps do to the clock ----

  lemma GetStamps(s: State, r: Ref, now: int)
    requires Safe(s) && Punctual(s) && r in s.heap
    ensures Punctual(Get(s, r, now)) && Clock(Get(s, r, now)) == Stamped(Clock(s), {s.heap[r].username}, now)
  {
  }

  lemma EffectStamps(s: State, r: Ref, now: int)
    requires Safe(s) && Punctual(s) && r in s.heap
    ensures Punctual(Effect(s, r, now))
    ensures Clock(Effect(s, r, now)) == Stamped(Clock(s), if s.heap[r].token == NO_TOKEN then {} else {s.heap[r].username}, now)
  {
  }

  lemma AddedStamps(s: State, name: Text, row: Row, addr: Ref, now: int)
    requires Safe(s) && Punctual(s) && name !in s.users && addr !in s.heap
    ensures Punctual(Added(s, name, row, addr, now)) && Clock(Added(s, name, row, addr, now)) == Stamped(Clock(s), {name}, now)
  {
    hide Safe, Clock, Stamped;
    ClockAdds(s, Added(s, name, row, addr, now), name, addr);
    StampedOne(Clock(s), name, now);
  }

  lemma StampedOne(c: map<Text, int>, name: Text, now: int)
    ensures c[name := now + 120] == Stamped(c, {name}, now)
  {
  }

  lemma ClockAdds(s: State, t: State, name: Text, addr: Ref)
    requires Safe(s) && addr !in s.heap && t.users == s.users[name := addr]
    requires t.heap.Keys == s.heap.Keys + {addr} && forall r :: r in s.heap ==> t.heap[r] == s.heap[r]
    ensures Clock(t) == Clock(s)[name := t.heap[addr].timeout]
  {
  }

  /** get_user_by_name starts the timer of the user it finds, and of no other. */
  lemma ByNameStamps(s: State, name: Text, row: Option<Row>, addr: Ref, now: int)
    requires Safe(s) && Punctual(s) && (name in s.users || addr !in s.heap)
    ensures var (t, found) := ByName(s, name, row, addr, now);
      Punctual(t) && Clock(t) == Stamped(Clock(s), if found.Some? then {name} else {}, now)
  {
    hide Safe, Punctual, Clock, Stamped, Get, Effect, Added;
    if name in s.users {
      UserOfName(s, name);
      GetStamps(s, s.users[name], now);
    } else if row.Some? {
      var a := Added(s, name, row.value, addr, now);
      NewStamps(s, name, row.value, addr, now);
      AddedIsSafe(s, name, row.value, addr, now);
      EffectIsSafe(a, addr, now);
      var b := Effect(a, addr, now);
      EffectStamps(a, addr, now);
      GetStamps(b, addr, now);
      StampedTwice(Clock(s), {name}, if a.heap[addr].token == NO_TOKEN then {} else {name}, now);
      StampedTwice(Clock(s), {name} + (if a.heap[addr].token == NO_TOKEN then {} else {name}), {name}, now);
      assert {name} + (if a.heap[addr].token == NO_TOKEN then {} else {name}) + {name} == {name};
    } else {
      StampedNone(Clock(s), now);
    }
  }

  lemma NewStamps(s: State, name: Text, row: Row, addr: Ref, now: int)
    requires Safe(s) && Punctual(s) && name !in s.users && addr !in s.heap
    ensures var a := Added(s, name, row, addr, now);
      && Punctual(a) && Clock(a) == Stamped(Clock(s), {name}, now) && addr in a.heap && a.heap[addr].username == name
      && addr in Effect(a, addr, now).heap && Effect(a, addr, now).heap[addr].username == name
  {
    hide Safe;
    AddedStamps(s, name, row, addr, now);
  }

  lemma SameClock(s: State, t: State)
    requires Punctual(s) && t.users == s.users && t.heap.Keys == s.heap.Keys
    requires forall r :: r in s.heap ==> t.heap[r].timeout == s.heap[r].timeout && t.heap[r].delaySec == s.heap[r].delaySec
    ensures Punctual(t) && Clock(t) == Clock(s)
  {
  }

  /** A new token starts the timer of its user when it takes effect. */
  lemma NewTokenStamps(s: State, r: Ref, random: Option<Text>, stored: bool, now: int)
    requires Quiet(s) && Punctual(s) && r in s.heap
    requires random.Some? ==> random.value != NO_TOKEN && FreshToken(s, r, random.value)
    ensures var t := NewToken(s, r, random, stored, now);
      Punctual(t) && Clock(t) == Stamped(Clock(s), if random.Some? && stored then {s.heap[r].username} else {}, now)
  {
    hide Safe, Balanced, DistinctTokens, References, Punctual, Clock, Stamped, FreshToken;
    StampedNone(Clock(s), now);
    if random.Some? {
      var a := s;
      if s.heap[r].token in s.tokens {
        FreeKeeps(s, r);
        FreeLeavesToken(s, r);
        a := Free(s, r);
        SameClock(s, a);
      }
      assert a.heap.Keys == s.heap.Keys && a.tokens == s.tokens - {s.heap[r].token} by {
        NewTokenKeeps(s, r, random, stored, now);
      }
      FreshBefore(s, a, r, random.value);
      var b := Renamed(a, r, random.value);
      RenamedKeeps(a, r, random.value);
      SameClock(a, b);
      EffectStamps(b, r, now);
    }
  }

  lemma FreshBefore(s: State, a: State, r: Ref, token: Text)
    requires FreshToken(s, r, token) && a.heap.Keys == s.heap.Keys
    requires forall q :: q in s.heap && q != r ==> a.heap[q] == s.heap[q]
    ensures FreshToken(a, r, token)
  {
  }

  /** Expiry takes the name off the clock. */
  lemma ExpireStops(s: State, t: State, r: Ref)
    requires Safe(s) && Punctual(s) && r in s.heap
    requires t.heap == s.heap - {r} && t.users == s.users - {s.heap[r].username}
    ensures Punctual(t) && Clock(t) == Clock(s) - {s.heap[r].username}
  {
  }

  lemma StampOf(s: State, t: State, name: Text, now: int)
    requires Clock(t) == Stamped(Clock(s), {name}, now) && Punctual(t) && name in t.users && t.users[name] in t.heap
    ensures t.heap[t.users[name]].timeout == now + 120 && t.heap[t.users[name]].delaySec == 120
  {
    assert name in Clock(t);
  }

  /** What a pass of the timers leaves of a clock. */
  ghost function NotDue(c: map<Text, int>, now: int): map<Text, int> {
    map n | n in c && now < c[n] :: c[n]
  }

  lemma TickStops(s: State, t: State, now: int)
    requires Safe(s) && Safe(t) && t.heap == map r | r in s.heap && now < s.heap[r].timeout :: s.heap[r]
    ensures Clock(t) == NotDue(Clock(s), now)
  {
    var c, d := Clock(t), NotDue(Clock(s), now);
    forall n ensures (n in c <==> n in d) && (n in c ==> c[n] == d[n]) {
      NameStays(s, t, now, n);
      hide Safe;
    }
    hide Clock, NotDue, Safe;
    assert c.Keys == d.Keys;
  }

  lemma StaysInHeap(s: State, t: State, now: int, r: Ref)
    requires t.heap == map r | r in s.heap && now < s.heap[r].timeout :: s.heap[r]
    ensures r in t.heap <==> r in s.heap && now < s.heap[r].timeout
    ensures r in t.heap ==> t.heap[r] == s.heap[r]
  {
  }

  lemma NameStays(s: State, t: State, now: int, n: Text)
    requires Safe(s) && Safe(t) && t.heap == map r | r in s.heap && now < s.heap[r].timeout :: s.heap[r]
    ensures n in t.users <==> n in s.users && now < s.heap[s.users[n]].timeout
    ensures n in t.users ==> t.users[n] == s.users[n] && s.users[n] in s.heap && t.users[n] in t.heap
    ensures n in s.users ==> s.users[n] in s.heap
    ensures n in t.users ==> t.heap[t.users[n]] == s.heap[s.users[n]]
  {
    if n in s.users {
      StaysInHeap(s, t, now, s.users[n]);
    }
    if n in t.users {
      StaysInHeap(s, t, now, t.users[n]);
    }
  }
}
